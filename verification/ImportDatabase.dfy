/** The importer at work: tables as fields, changed statement by statement inside one transaction. */
module ImportDatabase {
  import opened Options
  import opened Sessions
  import opened Plans
  import opened Ledger
  import opened Imports
  import opened ImportLaws

  class Database {
    var log: seq<Stored>
    var projects: map<Id, Project>
    var threads: map<Id, Thread>
    var messages: map<Id, MessageRow>
    var activities: map<Id, ActivityRow>
    var turns: map<TurnKey, TurnRow>
    var sessions: map<Id, Session>
    var runtimes: map<Id, Runtime>
    var cursors: map<string, Cursor>

    function State(): DB
      reads this
    {
      DB(log, projects, threads, messages, activities, turns, sessions, runtimes, cursors)
    }

    constructor ()
      ensures State() == DB([], map[], map[], map[], map[], map[], map[], map[], map[])
    {
      log, cursors := [], map[];
      projects, threads, messages, activities := map[], map[], map[], map[];
      turns, sessions, runtimes := map[], map[], map[];
    }

    /** ROLLBACK */
    method Restore(saved: DB)
      modifies this
      ensures State() == saved
    {
      log, projects, threads, messages := saved.log, saved.projects, saved.threads, saved.messages;
      activities, turns, sessions := saved.activities, saved.turns, saved.sessions;
      runtimes, cursors := saved.runtimes, saved.cursors;
    }

    method ClearThread(t: Id)
      modifies this
      ensures State() == Cleared(old(State()), t) && cursors == old(cursors)
    {
      runtimes := runtimes - {t};
      sessions := sessions - {t};
      messages := MessagesBut(messages, t);
      activities := ActivitiesBut(activities, t);
      turns := map k | k in turns && k.thread != t :: turns[k];
      threads := threads - {t};
      log := Without(log, t);
    }

    /** Fails, as a key violation does, when the event's id is already in the log. */
    method InsertEvent(e: Event, sequence: nat) returns (ok: bool)
      modifies `log
      ensures ok <==> e.id !in LogIds(old(log))
      ensures log == if ok then Append(old(log), e, sequence) else old(log)
    {
      ok := e.id !in LogIds(log);
      if ok {
        log := log + [Stored(sequence, NextVersion(log, e.kind, e.stream), e)];
      }
    }

    method InsertEvents(es: seq<Event>, first: nat) returns (ok: bool)
      modifies `log
      ensures ok <==> Insertable(LogIds(old(log)), EventIds(es))
      ensures ok ==> log == AppendAll(old(log), es, first)
    {
      hide NextVersion, Append, AppendAll, LogIds, EventIds, Insertable;
      NoEvents(log, first);
      assert es[..0] == [];
      for i := 0 to |es|
        invariant log == AppendAll(old(log), es[..i], first)
        invariant Insertable(LogIds(old(log)), EventIds(es[..i]))
      {
        NextEvent(old(log), es, first, i);
        ok := InsertEvent(es[i], first + i);
        if !ok {
          return;
        }
      }
      assert es[..|es|] == es;
      ok := true;
    }

    /** The three tables filled row by row. */
    method InsertMessages(t: Id, sent: seq<Sent>) returns (ok: bool)
      modifies `messages
      ensures ok <==> Insertable(old(messages).Keys, SentIds(sent))
      ensures ok ==> messages == FileMessages(old(messages), t, sent)
    {
      for i := 0 to |sent|
        invariant messages == FileMessages(old(messages), t, sent[..i])
        invariant Insertable(old(messages).Keys, SentIds(sent)[..i])
      {
        var s := sent[i];
        FileMessagesKeys(old(messages), t, sent[..i]);
        assert SentIds(sent[..i]) == SentIds(sent)[..i];
        InsertableSnoc(old(messages).Keys, SentIds(sent), i);
        if s.id in messages {
          NotInsertable(old(messages).Keys, SentIds(sent), i);
          return false;
        }
        assert sent[..i + 1][..i] == sent[..i];
        messages := messages[s.id := MessageRow(t, s.m.turn, s.m.role, s.m.text, false, s.m.at, s.m.at)];
      }
      assert sent[..|sent|] == sent && SentIds(sent)[..|sent|] == SentIds(sent);
      ok := true;
    }

    method InsertActivities(t: Id, acted: seq<Acted>) returns (ok: bool)
      modifies `activities
      ensures ok <==> Insertable(old(activities).Keys, ActedIds(acted))
      ensures ok ==> activities == FileActivities(old(activities), t, acted)
    {
      for i := 0 to |acted|
        invariant activities == FileActivities(old(activities), t, acted[..i])
        invariant Insertable(old(activities).Keys, ActedIds(acted)[..i])
      {
        var d := acted[i];
        FileActivitiesKeys(old(activities), t, acted[..i]);
        assert ActedIds(acted[..i]) == ActedIds(acted)[..i];
        InsertableSnoc(old(activities).Keys, ActedIds(acted), i);
        if d.id in activities {
          NotInsertable(old(activities).Keys, ActedIds(acted), i);
          return false;
        }
        assert acted[..i + 1][..i] == acted[..i];
        var row := ActivityRow(t, d.a.turn, d.a.tone, d.a.kind, d.a.summary, d.a.detail, d.a.line, i, d.a.at);
        activities := activities[d.id := row];
      }
      assert acted[..|acted|] == acted && ActedIds(acted)[..|acted|] == ActedIds(acted);
      ok := true;
    }

    method InsertTurns(t: Id, rows: seq<TurnRow>) returns (ok: bool)
      modifies `turns
      ensures ok <==> Insertable(old(turns).Keys, TurnKeys(t, rows))
      ensures ok ==> turns == FileTurns(old(turns), t, rows)
    {
      for i := 0 to |rows|
        invariant turns == FileTurns(old(turns), t, rows[..i])
        invariant Insertable(old(turns).Keys, TurnKeys(t, rows)[..i])
      {
        FileTurnsKeys(old(turns), t, rows[..i]);
        assert TurnKeys(t, rows[..i]) == TurnKeys(t, rows)[..i];
        InsertableSnoc(old(turns).Keys, TurnKeys(t, rows), i);
        if TurnKey(t, rows[i].turn) in turns {
          NotInsertable(old(turns).Keys, TurnKeys(t, rows), i);
          return false;
        }
        assert rows[..i + 1][..i] == rows[..i];
        turns := turns[TurnKey(t, rows[i].turn) := rows[i]];
      }
      assert rows[..|rows|] == rows && TurnKeys(t, rows)[..|rows|] == TurnKeys(t, rows);
      ok := true;
    }

    /** SELECT COALESCE(MAX(last_applied_sequence), 0) FROM projection_state */
    method HighestCursor() returns (n: nat)
      ensures n == MaxCursor(cursors)
    {
      n := 0;
      var left := cursors.Keys;
      while left != {}
        invariant left <= cursors.Keys
        invariant forall k :: k in cursors && k !in left ==> cursors[k].sequence <= n
        invariant n == 0 || exists k :: k in cursors && cursors[k].sequence == n
        decreases left
      {
        var k :| k in left;
        if cursors[k].sequence > n {
          n := cursors[k].sequence;
        }
        left := left - {k};
      }
    }

    method AdvanceCursors(c: Cursor)
      modifies `cursors
      ensures cursors == Advance(old(cursors), PROJECTORS, c)
    {
      for i := 0 to |PROJECTORS|
        invariant cursors == Advance(old(cursors), PROJECTORS[..i], c)
      {
        assert PROJECTORS[..i + 1][..i] == PROJECTORS[..i];
        cursors := cursors[PROJECTORS[i] := c];
      }
      assert PROJECTORS[..|PROJECTORS|] == PROJECTORS;
    }

    /** The statements of a plan up to the cursors; false at the first that violates a key. */
    method Write(p: Plan, first: nat) returns (ok: bool)
      modifies this
      ensures ok <==> Accepts(old(State()), p)
      ensures ok ==> State().(cursors := Written(old(State()), p, first).cursors) == Written(old(State()), p, first)
      ensures cursors == old(cursors)
    {
      hide AppendAll, FileMessages, FileActivities, FileTurns, Insertable, ThreadFor, RuntimeFor, LogIds, EventIds,
           SentIds, ActedIds, TurnKeys, Advance, MaxCursor, MaxSequence;
      var t := p.h.threadId;
      ok := InsertEvents(p.events, first);
      if !ok { return; }
      projects := ProjectsAfter(projects, p.h);
      if t in threads { return false; }
      threads := threads[t := ThreadFor(p)];
      ok := InsertMessages(t, p.sent);
      if !ok { return; }
      ok := InsertActivities(t, p.acted);
      if !ok { return; }
      ok := InsertTurns(t, p.turns);
      if !ok { return; }
      if t in sessions || t in runtimes { return false; }
      sessions := sessions[t := SessionFor(p.h)];
      runtimes := runtimes[t := RuntimeFor(p)];
    }

    /** Everything a plan says, or, when a key is violated anywhere, nothing. */
    method ApplyPlan(p: Plan, force: bool, first: nat) returns (applied: Option<nat>)
      modifies this
      ensures State() == Applied(old(State()), p, force, first)
      ensures applied.Some? <==> Accepts(Base(old(State()), p.h.threadId, force), p)
      ensures applied.Some? ==> cursors == Advance(old(cursors), PROJECTORS, Cursor(applied.value, p.h.now))
    {
      hide Accepts, Cleared, ProjectsAfter, FileMessages, FileActivities, FileTurns, Advance, AppendAll, ThreadFor,
           RuntimeFor;
      var saved := State();
      if force {
        ClearThread(p.h.threadId);
      }
      var ok := Write(p, first);
      if !ok {
        Restore(saved);
        return None;
      }
      var highest := HighestCursor();
      applied := Some(Max(MaxSequence(log), highest));
      AdvanceCursors(Cursor(applied.value, p.h.now));
    }

    /** SELECT ... WHERE workspace_root = ? AND deleted_at IS NULL ORDER BY updated_at DESC LIMIT 1 */
    method FindProject(root: string) returns (pick: Option<Id>)
      ensures Picks(projects, root, pick)
      ensures pick.None? ==> forall id :: id in projects ==> projects[id].root != root || projects[id].deletedAt.Some?
      ensures pick.Some? ==>
                && pick.value in projects
                && projects[pick.value].root == root && projects[pick.value].deletedAt.None?
                && forall id :: id in projects && projects[id].root == root && projects[id].deletedAt.None? ==>
                     projects[id].updatedAt <= projects[pick.value].updatedAt
    {
      pick := None;
      var left := projects.Keys;
      while left != {}
        invariant left <= projects.Keys
        invariant pick.None? ==> forall id :: id in projects && id !in left ==> !Candidate(projects[id], root)
        invariant pick.Some? ==>
                    && pick.value in projects && Candidate(projects[pick.value], root)
                    && forall id :: id in projects && id !in left && Candidate(projects[id], root) ==>
                         projects[id].updatedAt <= projects[pick.value].updatedAt
        decreases left
      {
        var id :| id in left;
        if Candidate(projects[id], root) && (pick.None? || projects[id].updatedAt > projects[pick.value].updatedAt) {
          pick := Some(id);
        }
        left := left - {id};
      }
    }

    /** The import command, once the session is read: refuse, or plan and apply. r.first is the sequence value
        the log gives out next. A sound database stays sound. */
    method Run(r: Request, hex: Id -> string) returns (done: bool, pick: Option<Id>)
      requires Below(log, r.first)
      modifies this
      ensures Valid(old(State()), r.(pick := pick))
      ensures State() == Import(old(State()), r.(pick := pick), hex)
      ensures old(Sound(State())) ==> Sound(State())
      ensures done <==> Succeeds(old(State()), r.(pick := pick), hex)
    {
      hide Refused, Sound, Accepts, Written, EventsOf, TurnsOf;
      done := false;
      pick := FindProject(r.args.root);
      var r' := r.(pick := pick);
      if Sound(State()) {
        ImportKeepsSound(State(), r', hex);
      }
      if Complete(r.args) && !Refused(State(), r.args, r.force, hex) {
        var p := BuildPlan(r.args, r.parsed, RefFor(projects, r'), pick.None?, r.now);
        var applied := ApplyPlan(p, r.force, r.first);
        done := applied.Some?;
      }
    }
  }

  lemma InsertableSnoc<K>(taken: set<K>, ids: seq<K>, i: nat)
    requires i < |ids|
    ensures Insertable(taken, ids[..i + 1]) <==> Insertable(taken, ids[..i]) && ids[i] !in taken && ids[i] !in ids[..i]
  {
    assert ids[..i + 1][..i] == ids[..i];
  }

  lemma NotInsertable<K>(taken: set<K>, ids: seq<K>, i: nat)
    requires i < |ids| && (ids[i] in taken || ids[i] in ids[..i])
    ensures !Insertable(taken, ids)
  {
    InsertableSnoc(taken, ids, i);
    if Insertable(taken, ids) {
      InsertablePrefix(taken, ids, i + 1);
    }
  }

  lemma EventIdsSnoc(es: seq<Event>, i: nat)
    requires i < |es|
    ensures EventIds(es[..i + 1]) == EventIds(es[..i]) + [es[i].id] && EventIds(es[..i]) == EventIds(es)[..i]
    ensures EventIds(es[..i + 1]) == EventIds(es)[..i + 1] && EventIds(es)[i] == es[i].id
  {
  }

  lemma AppendAllSnoc(log: seq<Stored>, es: seq<Event>, first: nat, i: nat)
    requires i < |es|
    ensures AppendAll(log, es[..i + 1], first) == Append(AppendAll(log, es[..i], first), es[i], first + i)
  {
    assert es[..i + 1][..i] == es[..i];
    hide NextVersion;
  }

  lemma NoEvents(log: seq<Stored>, first: nat)
    ensures AppendAll(log, [], first) == log && Insertable(LogIds(log), EventIds([]))
  {
  }

  /** The next event goes in exactly when its id is not in the log by then. */
  lemma NextEvent(log: seq<Stored>, es: seq<Event>, first: nat, i: nat)
    requires i < |es| && Insertable(LogIds(log), EventIds(es[..i]))
    ensures var l := AppendAll(log, es[..i], first);
            && AppendAll(log, es[..i + 1], first) == Append(l, es[i], first + i)
            && (es[i].id !in LogIds(l) ==> Insertable(LogIds(log), EventIds(es[..i + 1])))
            && (es[i].id in LogIds(l) ==> !Insertable(LogIds(log), EventIds(es)))
  {
    hide NextVersion, Append, AppendAll, LogIds, EventIds, Insertable;
    EventIdsSnoc(es, i);
    InsertableSnoc(LogIds(log), EventIds(es), i);
    AppendAllSnoc(log, es, first, i);
    LogIdsAll(log, es[..i], first);
    if es[i].id in LogIds(AppendAll(log, es[..i], first)) {
      NotInsertable(LogIds(log), EventIds(es), i);
    }
  }

  lemma {:induction false} LogIdsAll(log: seq<Stored>, es: seq<Event>, first: nat)
    ensures LogIds(AppendAll(log, es, first)) == LogIds(log) + set id | id in EventIds(es)
  {
    hide NextVersion, Append, LogIds, EventIds;
    if es == [] {
      assert EventIds(es) == [];
    } else {
      var i := |es| - 1;
      LogIdsAll(log, es[..i], first);
      LogIdsSnoc(AppendAll(log, es[..i], first), es[i], first + i);
      EventIdsSnoc(es, i);
      assert es[..i + 1] == es;
    }
  }

  lemma LogIdsSnoc(log: seq<Stored>, e: Event, sequence: nat)
    ensures LogIds(Append(log, e, sequence)) == LogIds(log) + {e.id}
  {
    hide NextVersion;
    var s := Stored(sequence, NextVersion(log, e.kind, e.stream), e);
    assert s in log + [s];
    forall id | id in LogIds(log) ensures id in LogIds(log + [s]) {
      var x :| x in log && x.e.id == id;
      assert x in log + [s];
    }
  }

  lemma {:induction false} FileTurnsKeys(turns: map<TurnKey, TurnRow>, t: Id, rows: seq<TurnRow>)
    ensures forall k :: k in FileTurns(turns, t, rows) <==> k in turns || k in TurnKeys(t, rows)
  {
    if rows != [] {
      var init := rows[..|rows| - 1];
      FileTurnsKeys(turns, t, init);
      assert TurnKeys(t, rows) == TurnKeys(t, init) + [TurnKey(t, rows[|rows| - 1].turn)];
    }
  }
}
