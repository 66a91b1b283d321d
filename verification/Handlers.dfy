/** A handler, or a lookup, that nothing interrupts does in Relay's steps what the methods of App do. */
module Handlers {
  import opened Options
  import opened Zones
  import opened Names
  import opened Tables
  import opened Reconciling
  import opened App
  import opened Relay

  /** A run in which program p alone takes steps, none of them cut short, until it ends. */
  ghost predicate Alone(s: Settings, ws: seq<World>, es: seq<Event>, p: nat) {
    && IsRun(s, ws, es) && p in ws[0].threads && p !in ws[|es|].threads
    && forall i :: 0 <= i < |es| ==> Steps(s, ws[i], es[i], p)
  }

  ghost predicate Steps(s: Settings, w: World, e: Event, p: nat) {
    e.Take? && e.p == p && p in w.threads && CanStep(s, w, w.threads[p], e.statement, e.next)
  }

  /** What a handler leaves once it has looked its environment up, as the contract of its method says. */
  ghost predicate Outcome(purpose: Purpose, r: Option<Environment>, db: DB, now: int, db': DB) {
    if r.None? then db' == db
    else
      var env := r.value;
      match purpose
      case Status =>
        exists probe: Probe ::
          db' == UpsertEnv(db, env.(status := if probe.failed then Unreachable else Running, lastSeen := now,
                                    probeJSON := if probe.body == "" then env.probeJSON else probe.body), now)
      case Delete => db' == DeleteEnv(DeleteExposuresOf(db, env.id), env.id)
      case Register(req) =>
        (match Prepare(env, req, now)
         case Rejected(_) => db' == db
         case Ready(x) => db' == Execute(db, SUpsertExposure(x), now))
      case Unregister(name) => db' == db.(exps := db.exps - {Key(env.id, NormalizedName(name))})
      case ListAll => db' == DeleteExpired(db, now)
  }

  ghost predicate Handled(s: Settings, id: string, purpose: Purpose, db: DB, now: int, db': DB) {
    exists r :: IsRelayLookup(db, id, s.descriptorID, r) && Outcome(purpose, r, db, now, db')
  }

  /** What a program on its way through a handler still leaves. */
  ghost predicate Leaves(s: Settings, prog: Program, db: DB, now: int, db': DB) {
    match prog
    case Finding(id, purpose) => Handled(s, id, purpose, db, now, db')
    case Scanning(id, purpose) => id !in db.envs ==> Handled(s, id, purpose, db, now, db')
    case Found(env, purpose) => Outcome(purpose, Some(env), db, now, db')
    case Writing(x) => db' == Execute(db, SUpsertExposure(x), now)
    case Dropping(id) => db' == DeleteEnv(db, id)
    case Reading(_) | Routing(_) | RoutingUnnamed(_) | RoutingRow(_, _) | Routed(_, _, _) => db' == db
    case Discovering(_, _, _) | Upserting(_, _, _, _) | Stopping(_) => true
  }

  lemma FoundStep(s: Settings, w: World, env: Environment, purpose: Purpose, st: Option<Statement>,
                  next: Option<Program>, db': DB)
    requires CanStep(s, w, Found(env, purpose), st, next)
    requires var db := if st.Some? then Execute(w.db, st.value, w.clock) else w.db;
             if next.None? then db' == db else Leaves(s, next.value, db, w.clock, db')
    ensures Outcome(purpose, Some(env), w.db, w.clock, db')
  {
    if purpose.Status? {
      var probe: Probe :| st == Some(SUpsertEnv(Refreshed(env, probe, w.clock)));
      StatusOutcome(env, probe, w.db, w.clock);
    }
    hide Prepare, UpsertEnv, Tables.UpsertExposure, DeleteEnv, DeleteExposuresOf, DeleteExpired, NormalizedName;
  }

  lemma StatusOutcome(env: Environment, probe: Probe, db: DB, now: int)
    ensures Outcome(Status, Some(env), db, now, Execute(db, SUpsertEnv(Refreshed(env, probe, now)), now))
  {
    hide UpsertEnv;
    assert Refreshed(env, probe, now) ==
           env.(status := if probe.failed then Unreachable else Running, lastSeen := now,
                probeJSON := if probe.body == "" then env.probeJSON else probe.body);
  }

  lemma LeavesStep(s: Settings, w: World, prog: Program, st: Option<Statement>, next: Option<Program>, db': DB)
    requires CanStep(s, w, prog, st, next)
    requires var db := if st.Some? then Execute(w.db, st.value, w.clock) else w.db;
             if next.None? then db' == db else Leaves(s, next.value, db, w.clock, db')
    ensures Leaves(s, prog, w.db, w.clock, db')
  {
    hide Outcome, Prepare, RelayID;
    match prog
    case Finding(id, purpose) =>
      if id in w.db.envs {
        assert IsRelayLookup(w.db, id, s.descriptorID, Some(w.db.envs[id]));
      }
    case Scanning(id, purpose) =>
      if id !in w.db.envs {
        var r := if next.Some? then Some(next.value.env) else None;
        assert IsRelayLookup(w.db, id, s.descriptorID, r);
        NoOutcome(purpose, w.db, w.clock);
      }
    case Found(env, purpose) => FoundStep(s, w, env, purpose, st, next, db');
    case _ =>
  }

  lemma NoOutcome(purpose: Purpose, db: DB, now: int)
    ensures Outcome(purpose, None, db, now, db)
  {
  }

  lemma {:induction false} AloneLeaves(s: Settings, ws: seq<World>, es: seq<Event>, p: nat, i: nat)
    requires Alone(s, ws, es, p) && i < |es|
    ensures p in ws[i].threads && Leaves(s, ws[i].threads[p], ws[i].db, ws[i].clock, ws[|es|].db)
    decreases |es| - i
  {
    hide CanStep, Leaves, Execute;
    assert Next(s, ws[i], es[i], ws[i + 1]) && Steps(s, ws[i], es[i], p);
    if i + 1 < |es| {
      AloneLeaves(s, ws, es, p, i + 1);
    }
    assert es[i].next.None? ==> p !in ws[i + 1].threads;
    LeavesStep(s, ws[i], ws[i].threads[p], es[i].statement, es[i].next, ws[|es|].db);
  }

  /** A handler that runs through alone leaves what its method leaves. */
  lemma UninterruptedHandler(s: Settings, ws: seq<World>, es: seq<Event>, p: nat, id: string, purpose: Purpose)
    requires Alone(s, ws, es, p) && ws[0].threads[p] == Finding(id, purpose)
    ensures Handled(s, id, purpose, ws[0].db, ws[0].clock, ws[|es|].db)
  {
    hide Handled, Steps, Next;
    AloneLeaves(s, ws, es, p, 0);
  }

  // ----- Lookups -----

  /** What a lookup on its way is going to answer. */
  ghost function Answer(prog: Program, db: DB, now: int): Option<Route> {
    match prog
    case Routing(name) => if NameTaken(db, name) || !HasDelimiter(name) then None else UnderLabel(name, db, now)
    case RoutingUnnamed(name) => UnderLabel(name, db, now)
    case RoutingRow(_, x) => RouteOf(x, db)
    case Routed(_, x, env) => Some(Route(env, x))
    case _ => None
  }

  ghost function UnderLabel(name: string, db: DB, now: int): Option<Route> {
    var x := ExposureByLabel(db, name, now);
    if x.None? then None else RouteOf(x.value, db)
  }

  function RouteOf(x: Exposure, db: DB): Option<Route> {
    if x.environmentID !in db.envs || db.envs[x.environmentID].status == Stopped then None
    else Some(Route(db.envs[x.environmentID], x))
  }

  predicate Routes(prog: Program) {
    prog.Routing? || prog.RoutingUnnamed? || prog.RoutingRow? || prog.Routed?
  }

  lemma AnswerStep(s: Settings, w: World, prog: Program, st: Option<Statement>, next: Option<Program>)
    requires CanStep(s, w, prog, st, next) && Routes(prog)
    ensures st.None?
    ensures next.Some? ==> Routes(next.value) && Answer(next.value, w.db, w.clock) == Answer(prog, w.db, w.clock)
    ensures prog.Routed? ==> next.None?
    ensures next.None? && !prog.Routed? ==> Answer(prog, w.db, w.clock).None?
  {
  }

  /** From step i on the lookup comes to answer route. */
  ghost predicate ComesTo(ws: seq<World>, n: nat, p: nat, i: nat, route: Route) {
    exists k, name :: i <= k < n <= |ws| && p in ws[k].threads &&
                      ws[k].threads[p] == Routed(name, route.exposure, route.env)
  }

  lemma ComesToLater(ws: seq<World>, n: nat, p: nat, i: nat, route: Route)
    requires i < n <= |ws| && p in ws[i].threads
    ensures ComesTo(ws, n, p, i, route) <==>
            ComesTo(ws, n, p, i + 1, route) ||
            exists name :: ws[i].threads[p] == Routed(name, route.exposure, route.env)
  {
    if name :| ws[i].threads[p] == Routed(name, route.exposure, route.env) {
      assert i <= i < n && ws[i].threads[p] == Routed(name, route.exposure, route.env);
    }
  }

  lemma {:induction false} AloneAnswers(s: Settings, ws: seq<World>, es: seq<Event>, p: nat, i: nat, route: Route)
    requires Alone(s, ws, es, p) && i < |es| && p in ws[i].threads && Routes(ws[i].threads[p])
    ensures ComesTo(ws, |es|, p, i, route) <==> Answer(ws[i].threads[p], ws[i].db, ws[i].clock) == Some(route)
    decreases |es| - i
  {
    hide CanStep, Answer, ComesTo, Execute;
    assert Next(s, ws[i], es[i], ws[i + 1]) && Steps(s, ws[i], es[i], p);
    var prog := ws[i].threads[p];
    AnswerStep(s, ws[i], prog, es[i].statement, es[i].next);
    ComesToLater(ws, |es|, p, i, route);
    RoutedAnswers(prog, ws[i].db, ws[i].clock);
    if i + 1 < |es| {
      assert Steps(s, ws[i + 1], es[i + 1], p);
      AloneAnswers(s, ws, es, p, i + 1, route);
    } else {
      NothingLater(ws, |es|, p, i + 1, route);
    }
  }

  lemma RoutedAnswers(prog: Program, db: DB, now: int)
    ensures prog.Routed? ==> Answer(prog, db, now) == Some(Route(prog.env, prog.x))
  {
  }

  lemma NothingLater(ws: seq<World>, n: nat, p: nat, i: nat, route: Route)
    requires i >= n
    ensures !ComesTo(ws, n, p, i, route)
  {
  }

  /** A lookup that runs through alone comes to exactly the answer of a lookup made at once. */
  lemma UninterruptedLookup(s: Settings, ws: seq<World>, es: seq<Event>, p: nat, zones: seq<string>, host: string,
                            route: Route)
    requires Alone(s, ws, es, p) && ParseServed(host, zones).Some?
    requires ws[0].threads[p] == Routing(ParseServed(host, zones).value.name)
    ensures ComesTo(ws, |es|, p, 0, route) <==>
            LookupExposure(ws[0].db, zones, host, ws[0].clock) == Some(route)
  {
    hide Steps, Next, ComesTo, ParseServed;
    AloneAnswers(s, ws, es, p, 0, route);
  }
}
