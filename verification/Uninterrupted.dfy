/** The pass as a program of single statements and the pass as one method come to the same when nothing
    interrupts the program. */
module Uninterrupted {
  import opened Options
  import opened Tables
  import opened Reconciling
  import opened Relay

  /** The program goes on without the write it was to make, as after an error. */
  predicate Skips(prog: Program, statement: Option<Statement>) {
    statement.None? && (prog.Upserting? || (prog.Stopping? && prog.ids != []))
  }

  /** Only the clock and program p move, and p is never cut short and never loses a write to an error. */
  ghost predicate Alone(s: Settings, ws: seq<World>, es: seq<Event>, p: nat) {
    IsRun(s, ws, es) &&
    forall i :: 0 <= i < |es| && !es[i].Tick? ==>
      && es[i].Take? && es[i].p == p && p in ws[i].threads
      && CanStep(s, ws[i], ws[i].threads[p], es[i].statement, es[i].next) && !Skips(ws[i].threads[p], es[i].statement)
  }

  /** The sweep is under way: some unseen containers' rows are stopped, the others are in ids. */
  ghost predicate Sweeping(full: DB, seen: set<string>, ids: seq<string>, db: DB) {
    && (forall c :: c in ids ==> c !in seen)
    && exists stopped: set<string> :: SweptSoFar(full, seen, ids, db, stopped)
  }

  ghost predicate SweptSoFar(full: DB, seen: set<string>, ids: seq<string>, db: DB, stopped: set<string>) {
    && stopped !! seen && db == StopContainers(full, stopped)
    && forall id :: id in full.envs ==>
         var e := full.envs[id];
         e.status == Stopped || e.containerID in seen || e.containerID in stopped || e.containerID in ids
  }

  /** done: the containers behind the program, with the clock readings it used. */
  ghost predicate Progress(cfg: Config, db0: DB, cs: seq<Container>, prog: Program, db: DB, done: seq<Container>) {
    && LongIDs(done)
    && match prog
       case Discovering(todo, owner, seen) =>
         && SameListing(cs, done + todo) && owner == OwnersAfter(done) && seen == Seen(done)
         && db == UpsertAll(cfg, db0, done)
       case Upserting(row, todo, owner, seen) =>
         && done != [] && SameListing(cs, done + todo) && owner == OwnersAfter(done) && seen == Seen(done)
         && var n := |done| - 1;
            && Effective(done[n]) && row == Row(cfg, done[n], NameAt(done, n)) && row.lastSeen > 0
            && db == UpsertAll(cfg, db0, done[..n])
       case Stopping(ids) => SameListing(cs, done) && Sweeping(UpsertAll(cfg, db0, done), Seen(done), ids, db)
       case _ => false
  }

  ghost predicate Finished(cfg: Config, db0: DB, cs: seq<Container>, db: DB, done: seq<Container>) {
    SameListing(cs, done) && LongIDs(done) && db == Pass(cfg, db0, done)
  }

  lemma SnocFacts(cfg: Config, db0: DB, done: seq<Container>, c: Container)
    requires LongIDs(done) && |c.id| >= 12
    ensures var cs := done + [c];
            && LongIDs(cs) && cs[..|done|] == done
            && OwnersAfter(cs) == (if Tracked(c) then Claim(OwnersAfter(done), c) else OwnersAfter(done))
            && NameAt(cs, |done|) == HostName(OwnersAfter(done), c)
            && Seen(cs) == Seen(done) + (if Tracked(c) then {c.id} else {})
            && UpsertAll(cfg, db0, cs) ==
               if Effective(c) then UpsertEnv(UpsertAll(cfg, db0, done), Row(cfg, c, NameAt(cs, |done|)), c.now)
               else UpsertAll(cfg, db0, done)
  {
    var cs := done + [c];
    assert cs[..|done|] == done && cs[..|cs|] == cs;
    OneMore(cs, |done|);
    hide BaseName, Collides, HostName, Claim, UpsertEnv, Row;
  }

  lemma SwapNow(cs: seq<Container>, done: seq<Container>, todo: seq<Container>, now: int)
    requires SameListing(cs, done + todo) && todo != []
    ensures SameListing(cs, (done + [todo[0].(now := now)]) + todo[1..])
    ensures SameListing(cs, (done + [todo[0]]) + todo[1..])
  {
    var a, b := done + todo, (done + [todo[0].(now := now)]) + todo[1..];
    assert (done + [todo[0]]) + todo[1..] == a;
    forall i | 0 <= i < |cs| ensures b[i] == cs[i].(now := b[i].now) {
      assert a[i] == cs[i].(now := a[i].now);
    }
  }

  /** A step of the loop over containers. */
  lemma LoopStep(s: Settings, w: World, db0: DB, cs: seq<Container>, prog: Program, st: Option<Statement>,
                 next: Option<Program>, done: seq<Container>)
    requires prog.Discovering? && prog.todo != [] && w.clock > 0
    requires Progress(s.cfg, db0, cs, prog, w.db, done) && CanStep(s, w, prog, st, next)
    ensures st.None? && next.Some? && exists done' :: Progress(s.cfg, db0, cs, next.value, w.db, done')
  {
    hide BaseName, UpsertEnv, UpsertAll, OwnersAfter, Seen, SameListing, LongIDs, HostName, Claim, Sweeping, NameAt;
    var c := prog.todo[0];
    var c' := if Effective(c) then c.(now := w.clock) else c;
    var done' := done + [c'];
    SwapNow(cs, done, prog.todo, w.clock);
    SnocFacts(s.cfg, db0, done, c');
    NowIsNotNamed(OwnersAfter(done), c, w.clock);
    assert done'[|done|] == c' && done'[..|done|] == done;
    assert Progress(s.cfg, db0, cs, next.value, w.db, done');
  }

  lemma NowIsNotNamed(owner: map<string, string>, c: Container, now: int)
    requires |c.id| >= 12
    ensures HostName(owner, c.(now := now)) == HostName(owner, c) && Claim(owner, c.(now := now)) == Claim(owner, c)
  {
    SameBase(c, c.(now := now));
    hide BaseName;
  }

  lemma StartSweep(full: DB, seen: set<string>, ids: seq<string>)
    requires ToStop(full, seen, ids)
    ensures Sweeping(full, seen, ids, full)
  {
    assert StopContainers(full, {}).envs == full.envs;
    forall id | id in full.envs
      ensures var e := full.envs[id]; e.status == Stopped || e.containerID in seen || e.containerID in ids
    {
      assert full.envs[id] in full.envs.Values;
    }
    assert SweptSoFar(full, seen, ids, full, {});
  }

  lemma SweepOne(full: DB, seen: set<string>, ids: seq<string>, db: DB)
    requires Sweeping(full, seen, ids, db) && ids != []
    ensures Sweeping(full, seen, ids[1..], MarkStopped(db, ids[0]))
  {
    var stopped: set<string> :| SweptSoFar(full, seen, ids, db, stopped);
    var stopped' := stopped + {ids[0]};
    assert ids == [ids[0]] + ids[1..];
    assert MarkStopped(db, ids[0]).envs == StopContainers(full, stopped').envs;
    assert SweptSoFar(full, seen, ids[1..], MarkStopped(db, ids[0]), stopped');
  }

  lemma SweepDone(full: DB, seen: set<string>, db: DB)
    requires Sweeping(full, seen, [], db)
    ensures db == StopUnseen(full, seen)
  {
    var stopped: set<string> :| SweptSoFar(full, seen, [], db, stopped);
    assert db.envs == StopUnseen(full, seen).envs;
  }

  /** Any step of the program. */
  lemma StepProgresses(s: Settings, w: World, db0: DB, cs: seq<Container>, prog: Program, st: Option<Statement>,
                       next: Option<Program>, done: seq<Container>)
    requires w.clock > 0 && Progress(s.cfg, db0, cs, prog, w.db, done) && CanStep(s, w, prog, st, next) &&
             !Skips(prog, st)
    ensures var db := if st.Some? then Execute(w.db, st.value, w.clock) else w.db;
            if next.Some? then exists done' :: Progress(s.cfg, db0, cs, next.value, db, done')
            else exists done' :: Finished(s.cfg, db0, cs, db, done')
  {
    hide UpsertEnv, UpsertAll, OwnersAfter, Seen, SameListing, LongIDs, NameAt, HostName, Claim, Sweeping, ToStop,
         StopUnseen, MarkStopped, BaseName, Row;
    match prog
    case Discovering(todo, owner, seen) =>
      if todo == [] {
        var ids :| ToStop(w.db, seen, ids) && next == Some(Stopping(ids));
        StartSweep(w.db, seen, ids);
        assert done + todo == done;
        assert Progress(s.cfg, db0, cs, next.value, w.db, done);
      } else {
        LoopStep(s, w, db0, cs, prog, st, next, done);
      }
    case Upserting(row, todo, owner, seen) =>
      UpsertStep(s, w, db0, cs, prog, done);
      assert Progress(s.cfg, db0, cs, next.value, Execute(w.db, st.value, w.clock), done);
    case Stopping(ids) =>
      if ids == [] {
        SweepDone(UpsertAll(s.cfg, db0, done), Seen(done), w.db);
        assert Finished(s.cfg, db0, cs, w.db, done);
      } else {
        SweepOne(UpsertAll(s.cfg, db0, done), Seen(done), ids, w.db);
        assert Progress(s.cfg, db0, cs, next.value, MarkStopped(w.db, ids[0]), done);
      }
    case _ =>
  }

  lemma UpsertStep(s: Settings, w: World, db0: DB, cs: seq<Container>, prog: Program, done: seq<Container>)
    requires prog.Upserting? && Progress(s.cfg, db0, cs, prog, w.db, done)
    ensures Progress(s.cfg, db0, cs, Discovering(prog.todo, prog.owner, prog.seen), UpsertEnv(w.db, prog.row, w.clock),
                     done)
  {
    hide OwnersAfter, Seen, SameListing, NameAt;
  }

  ghost predicate Underway(cfg: Config, db0: DB, cs: seq<Container>, w: World, p: nat) {
    if p in w.threads then exists done :: Progress(cfg, db0, cs, w.threads[p], w.db, done)
    else exists done :: Finished(cfg, db0, cs, w.db, done)
  }

  lemma NextUnderway(s: Settings, db0: DB, cs: seq<Container>, w: World, e: Event, w': World, p: nat)
    requires Next(s, w, e, w') && w.clock > 0 && Underway(s.cfg, db0, cs, w, p)
    requires e.Tick? || (e.Take? && e.p == p && p in w.threads && CanStep(s, w, w.threads[p], e.statement, e.next) &&
                         !Skips(w.threads[p], e.statement))
    ensures Underway(s.cfg, db0, cs, w', p) && w'.clock > 0
  {
    hide CanStep, Progress, Finished, Execute, Skips;
    if e.Take? {
      var done :| Progress(s.cfg, db0, cs, w.threads[p], w.db, done);
      StepProgresses(s, w, db0, cs, w.threads[p], e.statement, e.next, done);
    }
  }

  lemma {:induction false} RunUnderway(s: Settings, ws: seq<World>, es: seq<Event>, p: nat, cs: seq<Container>, i: nat)
    requires Alone(s, ws, es, p) && i < |ws| && ws[0].clock > 0
    requires p in ws[0].threads && ws[0].threads[p] == Discovering(cs, map[], {})
    ensures Underway(s.cfg, ws[0].db, cs, ws[i], p) && ws[i].clock > 0
  {
    hide CanStep, Next, Underway, Skips;
    if i == 0 {
      StartUnderway(s.cfg, ws[0], p, cs);
    } else {
      RunUnderway(s, ws, es, p, cs, i - 1);
      assert Next(s, ws[i - 1], es[i - 1], ws[i]);
      NextUnderway(s, ws[0].db, cs, ws[i - 1], es[i - 1], ws[i], p);
    }
  }

  lemma StartUnderway(cfg: Config, w: World, p: nat, cs: seq<Container>)
    requires p in w.threads && w.threads[p] == Discovering(cs, map[], {})
    ensures Underway(cfg, w.db, cs, w, p)
  {
    assert [] + cs == cs;
    assert Seen([]) == {};
    assert Progress(cfg, w.db, cs, w.threads[p], w.db, []);
  }

  /** A pass that runs to its end alone, statement by statement, leaves what the pass as a whole leaves, for
      the containers it was given and the clock readings it made on the way. */
  lemma UninterruptedPass(s: Settings, ws: seq<World>, es: seq<Event>, p: nat, cs: seq<Container>)
    requires Alone(s, ws, es, p) && ws[0].clock > 0
    requires p in ws[0].threads && ws[0].threads[p] == Discovering(cs, map[], {}) && p !in ws[|es|].threads
    ensures exists cs' :: LongIDs(cs') && SameListing(cs, cs') && ws[|es|].db == Pass(s.cfg, ws[0].db, cs')
  {
    RunUnderway(s, ws, es, p, cs, |es|);
    var cs' :| Finished(s.cfg, ws[0].db, cs, ws[|es|].db, cs');
  }
}
