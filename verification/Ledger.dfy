/** The importer's tables: an append-only log of events and, beside it, the rows the events stand for. */
module Ledger {
  import opened Options
  import opened Sessions
  import opened Plans

  /** A row of orchestration_events. The log lists them by sequence. */
  datatype Stored = Stored(sequence: nat, version: nat, e: Event)

  datatype Project = Project(title: string, root: string, selection: Selection, createdAt: Time, updatedAt: Time,
                             deletedAt: Option<Time>)

  datatype Thread = Thread(project: Id, title: string, selection: Selection, worktree: string, latestTurn: Option<Id>,
                           createdAt: Time, updatedAt: Time, latestUserAt: Option<Time>)

  datatype MessageRow = MessageRow(thread: Id, turn: Option<Id>, role: Role, text: string, streaming: bool,
                                   createdAt: Time, updatedAt: Time)

  datatype ActivityRow = ActivityRow(thread: Id, turn: Option<Id>, tone: string, kind: string, summary: string,
                                     detail: Detail, line: nat, sequence: nat, at: Time)

  /** The key of a turn row. */
  datatype TurnKey = TurnKey(thread: Id, turn: Id)

  /** What a provider needs to take its session up again. */
  datatype Resume =
    | CodexResume(ptid: string)
    | ClaudeResume(thread: Id, ptid: string, at: Option<string>, turnCount: nat)

  datatype Runtime = Runtime(provider: string, lastSeen: Time, resume: Resume, cwd: string, selection: Selection,
                             at: Time)

  datatype Cursor = Cursor(sequence: nat, at: Time)

  datatype DB = DB(log: seq<Stored>, projects: map<Id, Project>, threads: map<Id, Thread>,
                   messages: map<Id, MessageRow>, activities: map<Id, ActivityRow>, turns: map<TurnKey, TurnRow>,
                   sessions: map<Id, Session>, runtimes: map<Id, Runtime>, cursors: map<string, Cursor>)

  // ---- Replay ----

  /** The columns of a thread row that are replayed. */
  datatype Facts = Facts(project: Id, title: string, selection: Selection, worktree: string, createdAt: Time,
                         updatedAt: Time)

  datatype View = View(projects: map<Id, Project>, threads: map<Id, Facts>, messages: map<Id, MessageRow>,
                       activities: map<Id, ActivityRow>, sessions: map<Id, Session>)

  /** What a payload does to the rows: its columns replace those of the row it names. */
  function PlayPayload(v: View, p: Payload): View {
    match p
    case ProjectCreated(id, title, root, selection, createdAt, updatedAt) =>
      v.(projects := v.projects[id := Project(title, root, selection, createdAt, updatedAt, None)])
    case ProjectDeleted(id, at) =>
      if id in v.projects then v.(projects := v.projects[id := v.projects[id].(deletedAt := Some(at))]) else v
    case ThreadCreated(id, project, title, selection, worktree, createdAt, updatedAt) =>
      v.(threads := v.threads[id := Facts(project, title, selection, worktree, createdAt, updatedAt)])
    case MessageSent(thread, id, role, text, turn, streaming, createdAt, updatedAt) =>
      v.(messages := v.messages[id := MessageRow(thread, turn, role, text, streaming, createdAt, updatedAt)])
    case ActivityAppended(thread, id, tone, kind, summary, detail, line, turn, sequence, at) =>
      v.(activities := v.activities[id := ActivityRow(thread, turn, tone, kind, summary, detail, line, sequence, at)])
    case SessionSet(thread, session) => v.(sessions := v.sessions[thread := session])
    case Elsewhere(_) => v
  }

  function Touch(ts: map<Id, Facts>, t: Id, at: Time): map<Id, Facts> {
    if t in ts then ts[t := ts[t].(updatedAt := at)] else ts
  }

  /** An event plays its payload; one of a thread's stream also moves the thread's last update to its own time. */
  function Play(v: View, e: Event): View {
    var w := PlayPayload(v, e.payload);
    if e.kind.ThreadKind? then w.(threads := Touch(w.threads, e.stream, e.at)) else w
  }

  function Replay(log: seq<Stored>): View {
    if log == [] then View(map[], map[], map[], map[], map[])
    else Play(Replay(log[..|log| - 1]), log[|log| - 1].e)
  }

  /** An event belongs to the stream of the project or thread it speaks of; a message or an activity it writes
      again is one of the same thread. */
  predicate Fits(v: View, e: Event) {
    match e.payload
    case ProjectCreated(id, _, _, _, _, _) => e.kind.ProjectKind? && e.stream == id
    case ProjectDeleted(id, _) => e.kind.ProjectKind? && e.stream == id
    case ThreadCreated(id, _, _, _, _, _, _) => e.kind.ThreadKind? && e.stream == id
    case MessageSent(thread, id, _, _, _, _, _, _) =>
      e.kind.ThreadKind? && e.stream == thread && (id in v.messages ==> v.messages[id].thread == thread)
    case ActivityAppended(thread, id, _, _, _, _, _, _, _, _) =>
      e.kind.ThreadKind? && e.stream == thread && (id in v.activities ==> v.activities[id].thread == thread)
    case SessionSet(thread, _) => e.kind.ThreadKind? && e.stream == thread
    case Elsewhere(_) => true
  }

  predicate WellFormed(log: seq<Stored>) {
    log == [] || (WellFormed(log[..|log| - 1]) && Fits(Replay(log[..|log| - 1]), log[|log| - 1].e))
  }

  // ---- Deleting a stream ----

  /** DELETE FROM orchestration_events WHERE stream_id = ? */
  function Without(log: seq<Stored>, stream: Id): seq<Stored> {
    if log == [] then [] else
    var init, last := Without(log[..|log| - 1], stream), log[|log| - 1];
    if last.e.stream == stream then init else init + [last]
  }

  function MessagesBut(ms: map<Id, MessageRow>, t: Id): map<Id, MessageRow> {
    map m | m in ms && ms[m].thread != t :: ms[m]
  }

  function ActivitiesBut(acts: map<Id, ActivityRow>, t: Id): map<Id, ActivityRow> {
    map a | a in acts && acts[a].thread != t :: acts[a]
  }

  function Restrict(v: View, t: Id): View {
    View(v.projects - {t}, v.threads - {t}, MessagesBut(v.messages, t), ActivitiesBut(v.activities, t),
         v.sessions - {t})
  }

  lemma MessagesButAdd(ms: map<Id, MessageRow>, id: Id, row: MessageRow, t: Id)
    requires id in ms ==> ms[id].thread == row.thread
    ensures MessagesBut(ms[id := row], t) == if row.thread == t then MessagesBut(ms, t)
                                             else MessagesBut(ms, t)[id := row]
  {
  }

  lemma ActivitiesButAdd(acts: map<Id, ActivityRow>, id: Id, row: ActivityRow, t: Id)
    requires id in acts ==> acts[id].thread == row.thread
    ensures ActivitiesBut(acts[id := row], t) ==
            if row.thread == t then ActivitiesBut(acts, t) else ActivitiesBut(acts, t)[id := row]
  {
  }

  lemma WithoutKey<T>(m: map<Id, T>, id: Id, x: T, t: Id)
    ensures m[id := x] - {t} == if id == t then m - {t} else (m - {t})[id := x]
  {
  }

  lemma ButKeys(v: View, t: Id)
    ensures forall m :: m in MessagesBut(v.messages, t) ==>
              m in v.messages && MessagesBut(v.messages, t)[m] == v.messages[m]
    ensures forall a :: a in ActivitiesBut(v.activities, t) ==>
              a in v.activities && ActivitiesBut(v.activities, t)[a] == v.activities[a]
  {
  }

  lemma PayloadRestrictsProject(v: View, e: Event, t: Id)
    requires Fits(v, e) && (e.payload.ProjectCreated? || e.payload.ProjectDeleted?)
    ensures e.stream == t ==> Restrict(PlayPayload(v, e.payload), t) == Restrict(v, t)
    ensures e.stream != t ==>
              Fits(Restrict(v, t), e) &&
              Restrict(PlayPayload(v, e.payload), t) == PlayPayload(Restrict(v, t), e.payload)
  {
    hide MessagesBut, ActivitiesBut;
    match e.payload
    case ProjectCreated(id, title, root, selection, createdAt, updatedAt) =>
      WithoutKey(v.projects, id, Project(title, root, selection, createdAt, updatedAt, None), t);
    case ProjectDeleted(id, at) =>
      if id in v.projects {
        WithoutKey(v.projects, id, v.projects[id].(deletedAt := Some(at)), t);
      }
    case _ =>
  }

  lemma PayloadRestrictsThread(v: View, e: Event, t: Id)
    requires Fits(v, e) && (e.payload.ThreadCreated? || e.payload.SessionSet? || e.payload.Elsewhere?)
    ensures e.stream == t ==> Restrict(PlayPayload(v, e.payload), t) == Restrict(v, t)
    ensures e.stream != t ==>
              Fits(Restrict(v, t), e) &&
              Restrict(PlayPayload(v, e.payload), t) == PlayPayload(Restrict(v, t), e.payload)
  {
    hide MessagesBut, ActivitiesBut;
    match e.payload
    case ThreadCreated(id, project, title, selection, worktree, createdAt, updatedAt) =>
      WithoutKey(v.threads, id, Facts(project, title, selection, worktree, createdAt, updatedAt), t);
    case SessionSet(thread, session) => WithoutKey(v.sessions, thread, session, t);
    case _ =>
  }

  lemma PayloadRestrictsRows(v: View, e: Event, t: Id)
    requires Fits(v, e) && (e.payload.MessageSent? || e.payload.ActivityAppended?)
    ensures e.stream == t ==> Restrict(PlayPayload(v, e.payload), t) == Restrict(v, t)
    ensures e.stream != t ==>
              Fits(Restrict(v, t), e) &&
              Restrict(PlayPayload(v, e.payload), t) == PlayPayload(Restrict(v, t), e.payload)
  {
    hide MessagesBut, ActivitiesBut;
    ButKeys(v, t);
    match e.payload
    case MessageSent(thread, id, role, text, turn, streaming, createdAt, updatedAt) =>
      MessagesButAdd(v.messages, id, MessageRow(thread, turn, role, text, streaming, createdAt, updatedAt), t);
    case ActivityAppended(thread, id, tone, kind, summary, detail, line, turn, sequence, at) =>
      ActivitiesButAdd(v.activities, id, ActivityRow(thread, turn, tone, kind, summary, detail, line, sequence, at), t);
    case _ =>
  }

  lemma PayloadRestricts(v: View, e: Event, t: Id)
    requires Fits(v, e)
    ensures e.stream == t ==> Restrict(PlayPayload(v, e.payload), t) == Restrict(v, t)
    ensures e.stream != t ==>
              Fits(Restrict(v, t), e) &&
              Restrict(PlayPayload(v, e.payload), t) == PlayPayload(Restrict(v, t), e.payload)
  {
    hide Fits, PlayPayload, Restrict;
    if e.payload.ProjectCreated? || e.payload.ProjectDeleted? {
      PayloadRestrictsProject(v, e, t);
    } else if e.payload.MessageSent? || e.payload.ActivityAppended? {
      PayloadRestrictsRows(v, e, t);
    } else {
      PayloadRestrictsThread(v, e, t);
    }
  }

  lemma TouchRestricts(v: View, u: Id, at: Time, t: Id)
    ensures Restrict(v.(threads := Touch(v.threads, u, at)), t) ==
            if u == t then Restrict(v, t) else Restrict(v, t).(threads := Touch(Restrict(v, t).threads, u, at))
  {
    hide MessagesBut, ActivitiesBut;
    if u in v.threads {
      WithoutKey(v.threads, u, v.threads[u].(updatedAt := at), t);
    }
  }

  /** An event changes, of the rows that do not belong to a stream, nothing if it is of that stream, and what
      it would have changed without the stream's rows if it is not. */
  lemma PlayRestricts(v: View, e: Event, t: Id)
    requires Fits(v, e)
    ensures e.stream == t ==> Restrict(Play(v, e), t) == Restrict(v, t)
    ensures e.stream != t ==> Fits(Restrict(v, t), e) && Restrict(Play(v, e), t) == Play(Restrict(v, t), e)
  {
    hide Fits, PlayPayload, Restrict, Touch;
    PayloadRestricts(v, e, t);
    TouchRestricts(PlayPayload(v, e.payload), e.stream, e.at, t);
  }

  lemma ReplaySnoc(log: seq<Stored>, s: Stored)
    ensures Replay(log + [s]) == Play(Replay(log), s.e)
    ensures WellFormed(log + [s]) <==> WellFormed(log) && Fits(Replay(log), s.e)
  {
    assert (log + [s])[..|log|] == log;
    hide Play, Fits;
  }

  /** Deleting the events of a stream takes away, of what a replay gives, the rows of that stream and no others. */
  lemma {:induction false} WithoutReplays(log: seq<Stored>, t: Id)
    requires WellFormed(log)
    ensures WellFormed(Without(log, t)) && Replay(Without(log, t)) == Restrict(Replay(log), t)
  {
    hide Play, Fits, Restrict;
    if log == [] {
      NothingToRestrict(t);
    } else {
      var init, last := log[..|log| - 1], log[|log| - 1];
      WithoutReplays(init, t);
      PlayRestricts(Replay(init), last.e, t);
      if last.e.stream != t {
        ReplaySnoc(Without(init, t), last);
      }
    }
  }

  lemma NothingToRestrict(t: Id)
    ensures Restrict(Replay([]), t) == Replay([])
  {
  }

  // ---- Versions and sequences ----

  predicate OfStream(s: Stored, k: Kind, id: Id) {
    s.e.kind == k && s.e.stream == id
  }

  /** The versions of a stream's events, in sequence order. */
  function Versions(log: seq<Stored>, k: Kind, id: Id): seq<nat> {
    if log == [] then [] else
    var init, last := Versions(log[..|log| - 1], k, id), log[|log| - 1];
    if OfStream(last, k, id) then init + [last.version] else init
  }

  ghost predicate Counting(vs: seq<nat>) {
    forall i :: 0 <= i < |vs| ==> vs[i] == i
  }

  ghost predicate Gapless(log: seq<Stored>) {
    forall k, id :: Counting(Versions(log, k, id))
  }

  /** COALESCE((SELECT stream_version + 1 ... ORDER BY stream_version DESC LIMIT 1), 0) */
  function NextVersion(log: seq<Stored>, k: Kind, id: Id): nat {
    if log == [] then 0 else
    var before, last := NextVersion(log[..|log| - 1], k, id), log[|log| - 1];
    if OfStream(last, k, id) && last.version + 1 > before then last.version + 1 else before
  }

  lemma CountingSnoc(vs: seq<nat>, v: nat)
    ensures Counting(vs + [v]) <==> Counting(vs) && v == |vs|
  {
    if Counting(vs + [v]) {
      assert (vs + [v])[|vs|] == |vs|;
      assert forall i :: 0 <= i < |vs| ==> (vs + [v])[i] == vs[i];
    }
  }

  lemma {:induction false} NextVersionCounts(log: seq<Stored>, k: Kind, id: Id)
    requires Counting(Versions(log, k, id))
    ensures NextVersion(log, k, id) == |Versions(log, k, id)|
  {
    hide Counting;
    if log != [] {
      var init := log[..|log| - 1];
      if OfStream(log[|log| - 1], k, id) {
        CountingSnoc(Versions(init, k, id), log[|log| - 1].version);
      }
      NextVersionCounts(init, k, id);
    }
  }

  /** Sequences rise strictly along the log. */
  ghost predicate Rising(log: seq<Stored>) {
    forall i, j :: 0 <= i < j < |log| ==> log[i].sequence < log[j].sequence
  }

  /** Every stored event has a sequence below n. */
  ghost predicate Below(log: seq<Stored>, n: nat) {
    forall s :: s in log ==> s.sequence < n
  }

  lemma {:induction false} WithoutFacts(log: seq<Stored>, t: Id)
    ensures forall s :: s in Without(log, t) <==> s in log && s.e.stream != t
    ensures Rising(log) ==> Rising(Without(log, t))
  {
    if log != [] {
      var init, last := log[..|log| - 1], log[|log| - 1];
      WithoutFacts(init, t);
      assert log == init + [last];
      forall s ensures s in Without(log, t) <==> s in log && s.e.stream != t {
        assert s in log <==> s in init || s == last;
      }
      if Rising(log) {
        assert Rising(init);
        forall s | s in init ensures s.sequence < last.sequence {
          var i :| 0 <= i < |init| && init[i] == s;
          assert log[i] == s && log[|log| - 1] == last;
        }
        if last.e.stream != t {
          RisingSnoc(Without(init, t), last);
        }
      }
    }
  }

  lemma RisingSnoc(log: seq<Stored>, s: Stored)
    requires Rising(log) && Below(log, s.sequence)
    ensures Rising(log + [s])
  {
    forall i, j | 0 <= i < j < |log + [s]| ensures (log + [s])[i].sequence < (log + [s])[j].sequence {
      if j == |log| {
        assert log[i] in log;
      }
    }
  }

  lemma {:induction false} WithoutVersions(log: seq<Stored>, t: Id, k: Kind, id: Id)
    ensures Versions(Without(log, t), k, id) == if id == t then [] else Versions(log, k, id)
  {
    if log != [] {
      var init, last := log[..|log| - 1], log[|log| - 1];
      WithoutVersions(init, t, k, id);
      if last.e.stream != t {
        VersionsSnoc(Without(init, t), last, k, id);
      }
    }
  }

  lemma VersionsSnoc(log: seq<Stored>, s: Stored, k: Kind, id: Id)
    ensures Versions(log + [s], k, id) == Versions(log, k, id) + if OfStream(s, k, id) then [s.version] else []
  {
    assert (log + [s])[..|log|] == log;
    assert Versions(log, k, id) + [] == Versions(log, k, id);
  }

  lemma WithoutKeepsGapless(log: seq<Stored>, t: Id)
    requires Gapless(log)
    ensures Gapless(Without(log, t))
  {
    forall k, id ensures Counting(Versions(Without(log, t), k, id)) {
      WithoutVersions(log, t, k, id);
      assert Counting(Versions(log, k, id));
    }
  }

  // ---- Appending events ----

  /** INSERT INTO orchestration_events, for the next sequence value. */
  function Append(log: seq<Stored>, e: Event, sequence: nat): seq<Stored> {
    log + [Stored(sequence, NextVersion(log, e.kind, e.stream), e)]
  }

  /** The events of a plan, one after another. */
  function AppendAll(log: seq<Stored>, es: seq<Event>, first: nat): seq<Stored> {
    if es == [] then log
    else Append(AppendAll(log, es[..|es| - 1], first), es[|es| - 1], first + |es| - 1)
  }

  lemma AppendKeepsGapless(log: seq<Stored>, e: Event, sequence: nat)
    requires Gapless(log)
    ensures Gapless(Append(log, e, sequence))
  {
    var s := Stored(sequence, NextVersion(log, e.kind, e.stream), e);
    forall k, id ensures Counting(Versions(log + [s], k, id)) {
      assert Counting(Versions(log, k, id));
      VersionsSnoc(log, s, k, id);
      if OfStream(s, k, id) {
        NextVersionCounts(log, k, id);
        CountingSnoc(Versions(log, k, id), s.version);
      } else {
        assert Versions(log, k, id) + [] == Versions(log, k, id);
      }
      hide NextVersion, Versions, Counting;
    }
  }

  /** Appending keeps versions and sequences as they should be. */
  lemma {:induction false} AppendAllKeepsOrder(log: seq<Stored>, es: seq<Event>, first: nat)
    requires Gapless(log) && Rising(log) && Below(log, first)
    ensures var log' := AppendAll(log, es, first);
            Gapless(log') && Rising(log') && Below(log', first + |es|) && |log'| == |log| + |es|
    ensures log <= AppendAll(log, es, first)
  {
    hide Gapless, Rising, NextVersion;
    if es != [] {
      var init, e := es[..|es| - 1], es[|es| - 1];
      AppendAllKeepsOrder(log, init, first);
      var l := AppendAll(log, init, first);
      AppendKeepsGapless(l, e, first + |es| - 1);
      RisingSnoc(l, Stored(first + |es| - 1, NextVersion(l, e.kind, e.stream), e));
    }
  }

  function PlayAll(v: View, es: seq<Event>): View {
    if es == [] then v else Play(PlayAll(v, es[..|es| - 1]), es[|es| - 1])
  }

  predicate FitAll(v: View, es: seq<Event>) {
    es == [] || (FitAll(v, es[..|es| - 1]) && Fits(PlayAll(v, es[..|es| - 1]), es[|es| - 1]))
  }

  lemma {:induction false} AppendAllReplays(log: seq<Stored>, es: seq<Event>, first: nat)
    ensures Replay(AppendAll(log, es, first)) == PlayAll(Replay(log), es)
    ensures WellFormed(log) && FitAll(Replay(log), es) ==> WellFormed(AppendAll(log, es, first))
  {
    hide Play, Fits, NextVersion;
    if es != [] {
      var init, e := es[..|es| - 1], es[|es| - 1];
      AppendAllReplays(log, init, first);
      var l := AppendAll(log, init, first);
      ReplaySnoc(l, Stored(first + |es| - 1, NextVersion(l, e.kind, e.stream), e));
    }
  }

  lemma {:induction false} PlayAllConcat(v: View, a: seq<Event>, b: seq<Event>)
    ensures PlayAll(v, a + b) == PlayAll(PlayAll(v, a), b)
    ensures FitAll(v, a + b) <==> FitAll(v, a) && FitAll(PlayAll(v, a), b)
    decreases |b|
  {
    hide Play, Fits;
    if b == [] {
      assert a + b == a;
    } else {
      var init, e := b[..|b| - 1], b[|b| - 1];
      PlayAllConcat(v, a, init);
      assert (a + b)[..|a + b| - 1] == a + init;
    }
  }
}
