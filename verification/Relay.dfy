/** The relay under concurrency: reconcile, the handlers and host lookups as programs whose SQL
    statements interleave freely, with a clock that moves between them. */
module Relay {
  import opened Options
  import opened Zones
  import opened Text
  import opened Names
  import opened Tables
  import opened Sorting
  import opened Reconciling
  import opened App

  datatype Purpose = Status | Delete | Register(req: Request) | Unregister(name: string) | ListAll

  /** What a running handler or pass still has to do, with what it has read so far. */
  datatype Program =
    | Discovering(todo: seq<Container>, owner: map<string, string>, seen: set<string>)
    | Upserting(row: Environment, todo: seq<Container>, owner: map<string, string>, seen: set<string>)
    | Stopping(ids: seq<string>)
    | Finding(id: string, purpose: Purpose)
    | Scanning(id: string, purpose: Purpose)
    | Found(env: Environment, purpose: Purpose)
    | Writing(x: Exposure)
    | Dropping(id: string)
    | Reading(id: string)
    | Routing(name: string)
    | RoutingUnnamed(name: string)
    | RoutingRow(name: string, x: Exposure)
    | Routed(name: string, x: Exposure, env: Environment)

  datatype World = World(db: DB, clock: int, threads: map<nat, Program>)

  datatype Settings = Settings(cfg: Config, descriptorID: string -> string)

  /** A step: time passes, a program starts, or a program takes its next step, issuing at most one statement. */
  datatype Event =
    | Tick(to: int)
    | Spawn(p: nat, start: Program)
    | Take(p: nat, statement: Option<Statement>, next: Option<Program>)

  predicate DockerID(id: string) {
    |id| >= 12 && forall i :: 0 <= i < |id| ==> '0' <= id[i] <= '9' || 'a' <= id[i] <= 'f'
  }

  predicate DockerIDs(cs: seq<Container>) {
    forall i :: 0 <= i < |cs| ==> DockerID(cs[i].id)
  }

  predicate Starts(prog: Program) {
    || (prog.Discovering? && prog.owner == map[] && prog.seen == {} && DockerIDs(prog.todo))
    || prog.Finding?
    || prog.Routing?
  }

  /** The container ids the stop sweep will visit, in some order. */
  ghost predicate ToStop(db: DB, seen: set<string>, ids: seq<string>) {
    forall c :: c in ids <==> exists e :: e in db.envs.Values && e.containerID == c && e.status != Stopped && c !in seen
  }

  /** The steps a program can take: the statement it issues and the program that remains. A pass whose write fails
      goes on without it. */
  ghost predicate CanStep(s: Settings, w: World, prog: Program, statement: Option<Statement>, next: Option<Program>) {
    match prog
    case Discovering(todo, owner, seen) =>
      if todo == [] then
        statement == None && exists ids :: ToStop(w.db, seen, ids) && next == Some(Stopping(ids))
      else
        var c := todo[0];
        |c.id| >= 12 && statement == None &&
        if !Tracked(c) then next == Some(Discovering(todo[1..], owner, seen))
        else if c.ip == "" then next == Some(Discovering(todo[1..], Claim(owner, c), seen + {c.id}))
        else
          var row := Row(s.cfg, c.(now := w.clock), HostName(owner, c));
          next == Some(Upserting(row, todo[1..], Claim(owner, c), seen + {c.id}))
    case Upserting(row, todo, owner, seen) =>
      (statement == Some(SUpsertEnv(row)) || statement == None) && next == Some(Discovering(todo, owner, seen))
    case Stopping(ids) =>
      if ids == [] then statement == None && next == None
      else (statement == Some(SMarkStopped(ids[0])) || statement == None) && next == Some(Stopping(ids[1..]))
    case Finding(id, purpose) =>
      statement == None &&
      next == if id in w.db.envs then Some(Found(w.db.envs[id], purpose)) else Some(Scanning(id, purpose))
    case Scanning(id, purpose) =>
      statement == None &&
      (match next
       case Some(p) => p.Found? && p.purpose == purpose && p.env in w.db.envs.Values &&
                       RelayID(p.env, s.descriptorID) == id
       case None => forall e :: e in w.db.envs.Values ==> RelayID(e, s.descriptorID) != id)
    case Found(env, purpose) =>
      (match purpose
       case Status => next == None && exists probe :: statement == Some(SUpsertEnv(Refreshed(env, probe, w.clock)))
       case Delete => statement == Some(SDeleteExposuresOf(env.id)) && next == Some(Dropping(env.id))
       case Register(req) =>
         statement == None &&
         (match Prepare(env, req, w.clock)
          case Rejected(_) => next == None
          case Ready(x) => next == Some(Writing(x)))
       case Unregister(name) => statement == Some(SDeleteExposure(Key(env.id, NormalizedName(name)))) && next == None
       case ListAll => statement == Some(SDeleteExpired) && next == Some(Reading(env.id)))
    case Writing(x) => statement == Some(SUpsertExposure(x)) && next == None
    case Dropping(id) => statement == Some(SDeleteEnv(id)) && next == None
    case Reading(_) => statement == None && next == None
    case Routing(name) =>
      statement == None &&
      next == if NameTaken(w.db, name) || !HasDelimiter(name) then None else Some(RoutingUnnamed(name))
    case RoutingUnnamed(name) =>
      statement == None &&
      var x := ExposureByLabel(w.db, name, w.clock);
      next == if x.None? then None else Some(RoutingRow(name, x.value))
    case RoutingRow(name, x) =>
      statement == None &&
      next == if x.environmentID !in w.db.envs || w.db.envs[x.environmentID].status == Stopped then None
              else Some(Routed(name, x, w.db.envs[x.environmentID]))
    case Routed(_, _, _) => statement == None && next == None
  }

  function Continue(threads: map<nat, Program>, p: nat, next: Option<Program>): map<nat, Program> {
    if next.Some? then threads[p := next.value] else threads - {p}
  }

  /** A program may also be cut short at any point by an error of the database or the network. */
  ghost predicate Next(s: Settings, w: World, e: Event, w': World) {
    match e
    case Tick(to) => w.clock <= to && w' == w.(clock := to)
    case Spawn(p, start) => p !in w.threads && Starts(start) && w' == w.(threads := w.threads[p := start])
    case Take(p, statement, next) =>
      && p in w.threads
      && (CanStep(s, w, w.threads[p], statement, next) || (statement == None && next == None))
      && w'.clock == w.clock
      && w'.threads == Continue(w.threads, p, next)
      && w'.db == if statement.Some? then Execute(w.db, statement.value, w.clock) else w.db
  }

  /** A run: worlds joined by events. */
  ghost predicate IsRun(s: Settings, ws: seq<World>, es: seq<Event>) {
    |ws| == |es| + 1 && forall i :: 0 <= i < |es| ==> Next(s, ws[i], es[i], ws[i + 1])
  }

  /** Non-empty and usable as a DNS label. */
  predicate GoodName(n: string) {
    n != "" && IsLabel(n)
  }

  predicate GoodExposure(x: Exposure) {
    && 1 <= x.port <= 65535 && x.scheme == "http"
    && 1 <= x.expiresAt - x.lastSeen <= 86400
    && IsExposureName(x.name)
    && IsLabel(x.hostLabel) && |x.hostLabel| > |x.name| + 2 && HasSuffix(x.hostLabel, "--" + x.name)
  }

  ghost predicate GoodProgram(prog: Program) {
    match prog
    case Discovering(todo, _, _) => DockerIDs(todo)
    case Upserting(row, todo, _, _) => GoodName(row.name) && row.status != Stopped && DockerIDs(todo)
    case Found(env, _) => GoodName(env.name)
    case Writing(x) => GoodExposure(x) && x.lastSeen > 0
    case _ => true
  }

  /** What every reachable state satisfies: keys and labels are unique, names are labels, and every
      exposure has a port, a bounded lifetime and a label made from its name. */
  ghost predicate Good(w: World) {
    && w.clock > 0
    && Keyed(w.db) && LabelsUnique(w.db)
    && (forall id :: id in w.db.envs ==> GoodName(w.db.envs[id].name))
    && (forall k :: k in w.db.exps ==> GoodExposure(w.db.exps[k]))
    && (forall p :: p in w.threads ==> GoodProgram(w.threads[p]))
  }

  lemma DockerBaseIsGood(c: Container)
    requires DockerID(c.id)
    ensures GoodName(BaseName(c)) && GoodName(Suffixed(BaseName(c), c.id))
  {
    var short := c.id[..12];
    assert IsLabel(short) && Trimmed(short, IsHyphen) by {
      assert forall i :: 0 <= i < 12 ==> short[i] == c.id[i];
    }
    SanitizeKeeps(short);
    if c.hostLabel.Some? { SanitizedForm(c.hostLabel.value); }
    FirstNameIsLabel(c.names);
    assert c.id[..6] == short[..6];
  }

  lemma {:induction false} FirstNameIsLabel(names: seq<string>)
    ensures IsLabel(FirstName(names))
  {
    if names != [] {
      SanitizedForm(names[0]);
      FirstNameIsLabel(names[1..]);
    }
  }

  lemma PreparedIsGood(env: Environment, req: Request, now: int)
    requires GoodName(env.name) && now > 0
    ensures Prepare(env, req, now).Ready? ==>
              GoodExposure(Prepare(env, req, now).x) && Prepare(env, req, now).x.lastSeen > 0
  {
    hide NormalizedName, Itoa, IsExposureName, GoodName, HostLabel, IsSpace, Leading, Trailing, ToLower, IsLabel,
         HasSuffix;
    if Prepare(env, req, now).Ready? {
      NormalizedForm(req.name);
      DefaultNameIsNormal(req.port);
      LabelOfGoodNames(env.name, ExposureName(req));
    }
  }

  lemma LabelOfGoodNames(env: string, n: string)
    requires GoodName(env) && IsExposureName(n)
    ensures IsLabel(HostLabel(env, n)) && HasSuffix(HostLabel(env, n), "--" + n) && |HostLabel(env, n)| > |n| + 2
  {
    assert HostLabel(env, n) == env + ("--" + n);
  }

  lemma StatementKeepsGood(w: World, st: Statement)
    requires Good(w)
    requires st.SUpsertEnv? ==> GoodName(st.env.name)
    requires st.SUpsertExposure? ==> GoodExposure(st.x) && st.x.lastSeen > 0
    ensures var db := Execute(w.db, st, w.clock);
            && Keyed(db) && LabelsUnique(db)
            && (forall id :: id in db.envs ==> GoodName(db.envs[id].name))
            && (forall k :: k in db.exps ==> GoodExposure(db.exps[k]))
  {
    hide GoodName, HasSuffix;
    ExecuteKeepsKeys(w.db, st, w.clock);
  }

  /** A program that is in order issues statements that are in order, and stays in order. */
  lemma StepKeepsProgram(s: Settings, w: World, prog: Program, st: Option<Statement>, next: Option<Program>)
    requires Good(w) && GoodProgram(prog) && CanStep(s, w, prog, st, next)
    ensures st.Some? && st.value.SUpsertEnv? ==> GoodName(st.value.env.name) && st.value.env.status != Stopped
    ensures st.Some? && st.value.SUpsertExposure? ==> GoodExposure(st.value.x) && st.value.x.lastSeen > 0
    ensures next.Some? ==> GoodProgram(next.value)
  {
    hide GoodName, GoodExposure, BaseName, Prepare, HasDelimiter, DockerID;
    if prog.Discovering? && prog.todo != [] {
      DockerBaseIsGood(prog.todo[0]);
    }
    if prog.Found? && prog.purpose.Register? {
      PreparedIsGood(prog.env, prog.purpose.req, w.clock);
    }
  }

  lemma NextKeepsGood(s: Settings, w: World, e: Event, w': World)
    requires Good(w) && Next(s, w, e, w')
    ensures Good(w')
  {
    hide GoodName, GoodExposure, CanStep, Execute;
    if e.Take? && CanStep(s, w, w.threads[e.p], e.statement, e.next) {
      StepKeepsProgram(s, w, w.threads[e.p], e.statement, e.next);
      if e.statement.Some? { StatementKeepsGood(w, e.statement.value); }
    }
  }

  /** Under every interleaving every state is good. */
  lemma {:induction false} RunKeepsGood(s: Settings, ws: seq<World>, es: seq<Event>)
    requires IsRun(s, ws, es) && Good(ws[0])
    ensures forall i :: 0 <= i < |ws| ==> Good(ws[i])
    decreases |es|
  {
    if es != [] {
      NextKeepsGood(s, ws[0], es[0], ws[1]);
      var ws', es' := ws[1..], es[1..];
      assert IsRun(s, ws', es') by {
        forall i | 0 <= i < |es'| ensures Next(s, ws'[i], es'[i], ws'[i + 1]) {
          assert Next(s, ws[i + 1], es[i + 1], ws[i + 2]);
        }
      }
      RunKeepsGood(s, ws', es');
      forall i | 0 <= i < |ws| ensures Good(ws[i]) {
        assert i == 0 || Good(ws'[i - 1]);
      }
    }
  }

  lemma StatementKeepsFirstSeen(db: DB, st: Statement, now: int, id: string)
    requires id in db.envs && id in Execute(db, st, now).envs
    ensures Execute(db, st, now).envs[id].firstSeen == db.envs[id].firstSeen
  {
  }

  /** Under every interleaving a row keeps its first_seen as long as it stays in the table. */
  lemma {:induction false} FirstSeenIsStable(s: Settings, ws: seq<World>, es: seq<Event>, id: string, i: nat, j: nat)
    requires IsRun(s, ws, es) && i <= j < |ws| && forall n :: i <= n <= j ==> id in ws[n].db.envs
    ensures id in ws[i].db.envs && id in ws[j].db.envs && ws[j].db.envs[id].firstSeen == ws[i].db.envs[id].firstSeen
    decreases j
  {
    hide CanStep, Execute;
    if i < j {
      FirstSeenIsStable(s, ws, es, id, i, j - 1);
      var e := es[j - 1];
      assert Next(s, ws[j - 1], e, ws[j]);
      if e.Take? && e.statement.Some? {
        StatementKeepsFirstSeen(ws[j - 1].db, e.statement.value, ws[j - 1].clock, id);
      }
    }
  }

  lemma FreshStartIsGood(now: int)
    requires now > 0
    ensures Good(World(DB(map[], map[]), now, map[]))
  {
  }

  // ----- registration implies routing -----

  /** x is stored, its environment is up, and no environment is called by its label. */
  predicate Standing(db: DB, x: Exposure) {
    && KeyOf(x) in db.exps && db.exps[KeyOf(x)] == x
    && x.environmentID in db.envs && db.envs[x.environmentID].status != Stopped
    && !NameTaken(db, x.hostLabel)
  }

  /** The statements that may end it: the exposure is deleted or refreshed, its environment is deleted or
      stopped, or an environment takes the label as its name. */
  predicate Ends(db: DB, st: Statement, x: Exposure) {
    match st
    case SUpsertEnv(env) => env.name == x.hostLabel
    case SMarkStopped(c) => x.environmentID in db.envs && db.envs[x.environmentID].containerID == c
    case SDeleteExposuresOf(id) => id == x.environmentID
    case SDeleteEnv(id) => id == x.environmentID
    case SUpsertExposure(y) => KeyOf(y) == KeyOf(x)
    case SDeleteExposure(k) => k == KeyOf(x)
    case SDeleteExpired => false
  }

  lemma StatementKeepsStanding(db: DB, st: Statement, now: int, x: Exposure)
    requires Standing(db, x) && !Ends(db, st, x) && now < x.expiresAt
    requires st.SUpsertEnv? ==> st.env.status != Stopped
    ensures Standing(Execute(db, st, now), x)
  {
  }

  lemma {:induction false} StandingThroughRun(s: Settings, ws: seq<World>, es: seq<Event>, x: Exposure)
    requires IsRun(s, ws, es) && Good(ws[0]) && Standing(ws[0].db, x)
    requires forall i :: 0 <= i < |ws| ==> ws[i].clock < x.expiresAt
    requires forall i :: 0 <= i < |es| && es[i].Take? && es[i].statement.Some? ==>
               !Ends(ws[i].db, es[i].statement.value, x)
    ensures Standing(ws[|es|].db, x)
    decreases |es|
  {
    if es != [] {
      hide Good, Standing, Ends, CanStep, Execute;
      var n := |es| - 1;
      var ws', es' := ws[..|es|], es[..n];
      assert IsRun(s, ws', es') by {
        forall i | 0 <= i < |es'| ensures Next(s, ws'[i], es'[i], ws'[i + 1]) {
          assert Next(s, ws[i], es[i], ws[i + 1]);
        }
      }
      StandingThroughRun(s, ws', es', x);
      RunKeepsGood(s, ws', es');
      StandingStep(s, ws[n], es[n], ws[n + 1], x);
    }
  }

  lemma StandingStep(s: Settings, w: World, e: Event, w': World, x: Exposure)
    requires Good(w) && Next(s, w, e, w') && Standing(w.db, x) && w.clock < x.expiresAt
    requires e.Take? && e.statement.Some? ==> !Ends(w.db, e.statement.value, x)
    ensures Standing(w'.db, x)
  {
    hide Standing, Ends, CanStep, Execute, GoodName, GoodExposure;
    if e.Take? && e.statement.Some? {
      StepKeepsProgram(s, w, w.threads[e.p], e.statement, e.next);
      StatementKeepsStanding(w.db, e.statement.value, w.clock, x);
    }
  }

  /** Where the label's delimiter is, and that the lookup will accept it. */
  lemma GoodLabelDelimiter(x: Exposure)
    requires GoodExposure(x)
    ensures HasDelimiter(x.hostLabel)
  {
    var env := x.hostLabel[..|x.hostLabel| - |x.name| - 2];
    assert x.hostLabel == env + ("--" + x.name);
    assert x.hostLabel == HostLabel(env, x.name);
    DelimiterAtJoin(env, x.name);
  }

  /** In a good state a standing, unexpired exposure is what its published host looks up. */
  lemma StandingRoutes(w: World, zones: seq<string>, primaryZone: string, x: Exposure)
    requires Good(w) && Standing(w.db, x) && w.clock < x.expiresAt
    requires Ordered(zones, LongestFirst) && primaryZone in zones && Reachable(primaryZone)
    ensures LookupExposure(w.db, zones, PublishedHostname(primaryZone, x.hostLabel), w.clock)
            == Some(Route(w.db.envs[x.environmentID], x))
  {
    GoodLabelDelimiter(x);
    PublishedParses(x.hostLabel, primaryZone, zones);
    hide HasDelimiter, ParseServed, PublishedHostname, Reachable, GoodName;
    LookupExposureExact(w.db, zones, PublishedHostname(primaryZone, x.hostLabel), w.clock,
                        Route(w.db.envs[x.environmentID], x));
  }

  /** The row that a successful write of x leaves behind. */
  function Stored(db: DB, x: Exposure): Exposure {
    if KeyOf(x) in db.exps then x.(createdAt := db.exps[KeyOf(x)].createdAt) else x
  }

  /** From the write of x in ws[0] on, the host published for its label leads to the environment's row
      and the stored exposure, until one of the named events happens. */
  lemma WrittenRoutes(s: Settings, ws: seq<World>, es: seq<Event>, p: nat, x: Exposure)
    requires IsRun(s, ws, es) && |es| >= 1 && Good(ws[0]) && x.createdAt != 0
    requires p in ws[0].threads && ws[0].threads[p] == Writing(x)
    requires es[0] == Take(p, Some(SUpsertExposure(x)), None) && UpsertExposure(ws[0].db, x, ws[0].clock).Some?
    requires x.environmentID in ws[0].db.envs && ws[0].db.envs[x.environmentID].status != Stopped
    requires !NameTaken(ws[0].db, x.hostLabel)
    requires forall i :: 0 <= i < |ws| ==> ws[i].clock < x.expiresAt
    requires forall i :: 1 <= i < |es| && es[i].Take? && es[i].statement.Some? ==>
               !Ends(ws[i].db, es[i].statement.value, Stored(ws[0].db, x))
    requires Ordered(s.cfg.zones, LongestFirst) && s.cfg.primaryZone in s.cfg.zones && Reachable(s.cfg.primaryZone)
    ensures var w := ws[|es|];
            && x.environmentID in w.db.envs
            && LookupExposure(w.db, s.cfg.zones, PublishedHostname(s.cfg.primaryZone, x.hostLabel), w.clock)
               == Some(Route(w.db.envs[x.environmentID], Stored(ws[0].db, x)))
  {
    hide *;
    FirstStep(s, ws, es);
    var y := Stored(ws[0].db, x);
    StoredFields(ws[0].db, x);
    WriteStands(s, ws[0], es[0], ws[1], p, x);
    RunTail(s, ws, es, x.expiresAt, y);
    var ws', es' := ws[1..], es[1..];
    StandingThroughRun(s, ws', es', y);
    RunKeepsGood(s, ws, es);
    assert ws'[|es'|] == ws[|es|];
    StandingRoutes(ws[|es|], s.cfg.zones, s.cfg.primaryZone, y);
    StandingIsUp(ws[|es|].db, y);
  }

  lemma StoredFields(db: DB, x: Exposure)
    ensures var y := Stored(db, x);
            y.environmentID == x.environmentID && y.hostLabel == x.hostLabel && y.expiresAt == x.expiresAt
  {
  }

  lemma FirstStep(s: Settings, ws: seq<World>, es: seq<Event>)
    requires IsRun(s, ws, es) && |es| >= 1
    ensures |ws| == |es| + 1 && Next(s, ws[0], es[0], ws[1])
  {
  }

  lemma StandingIsUp(db: DB, x: Exposure)
    requires Standing(db, x)
    ensures x.environmentID in db.envs
  {
  }

  /** Registration implies routing. A handler that prepared an exposure for the environment env and wrote
      it without a label clash, while the environment was up and no environment bore the label, makes the
      host env.name--name.zone lead to env's row and that exposure in every later state, until the exposure
      expires, is deleted or refreshed, the environment is deleted or stopped, or the label is taken. */
  lemma RegistrationRoutes(s: Settings, ws: seq<World>, es: seq<Event>, p: nat, env: Environment, req: Request, at: int)
    requires at > 0 && Prepare(env, req, at).Ready?
    requires IsRun(s, ws, es) && |es| >= 1 && Good(ws[0])
    requires p in ws[0].threads && ws[0].threads[p] == Writing(Prepare(env, req, at).x)
    requires es[0] == Take(p, Some(SUpsertExposure(Prepare(env, req, at).x)), None)
    requires UpsertExposure(ws[0].db, Prepare(env, req, at).x, ws[0].clock).Some?
    requires env.id in ws[0].db.envs && ws[0].db.envs[env.id].status != Stopped
    requires !NameTaken(ws[0].db, env.name + "--" + ExposureName(req))
    requires forall i :: 0 <= i < |ws| ==> ws[i].clock < at + Lifetime(req.ttlSeconds)
    requires forall i :: 1 <= i < |es| && es[i].Take? && es[i].statement.Some? ==>
               !Ends(ws[i].db, es[i].statement.value, Stored(ws[0].db, Prepare(env, req, at).x))
    requires Ordered(s.cfg.zones, LongestFirst) && s.cfg.primaryZone in s.cfg.zones && Reachable(s.cfg.primaryZone)
    ensures var w := ws[|es|];
            && env.id in w.db.envs
            && LookupExposure(w.db, s.cfg.zones,
                              PublishedHostname(s.cfg.primaryZone, env.name + "--" + ExposureName(req)), w.clock)
               == Some(Route(w.db.envs[env.id], Stored(ws[0].db, Prepare(env, req, at).x)))
  {
    hide ExposureName, IsRun, Good, UpsertExposure, NameTaken, LookupExposure, Ends, Stored, Reachable,
         PublishedHostname, Ordered;
    WrittenRoutes(s, ws, es, p, Prepare(env, req, at).x);
  }

  lemma WriteStands(s: Settings, w: World, e: Event, w': World, p: nat, x: Exposure)
    requires Good(w) && Next(s, w, e, w') && p in w.threads && w.threads[p] == Writing(x)
    requires e == Take(p, Some(SUpsertExposure(x)), None) && UpsertExposure(w.db, x, w.clock).Some?
    requires x.createdAt != 0 && x.environmentID in w.db.envs && w.db.envs[x.environmentID].status != Stopped
    requires !NameTaken(w.db, x.hostLabel)
    ensures Standing(w'.db, Stored(w.db, x)) && Good(w')
  {
    NextKeepsGood(s, w, e, w');
    assert Filled(x, w.clock) == x;
  }

  lemma RunTail(s: Settings, ws: seq<World>, es: seq<Event>, until: int, y: Exposure)
    requires IsRun(s, ws, es) && |es| >= 1
    requires forall i :: 0 <= i < |ws| ==> ws[i].clock < until
    requires forall i :: 1 <= i < |es| && es[i].Take? && es[i].statement.Some? ==>
               !Ends(ws[i].db, es[i].statement.value, y)
    ensures var ws', es' := ws[1..], es[1..];
            && IsRun(s, ws', es')
            && (forall i :: 0 <= i < |ws'| ==> ws'[i].clock < until)
            && (forall i :: 0 <= i < |es'| && es'[i].Take? && es'[i].statement.Some? ==>
                              !Ends(ws'[i].db, es'[i].statement.value, y))
  {
    hide Next, Ends;
    var ws', es' := ws[1..], es[1..];
    forall i | 0 <= i < |es'| ensures Next(s, ws'[i], es'[i], ws'[i + 1]) {
      assert Next(s, ws[i + 1], es[i + 1], ws[i + 2]);
    }
    forall i | 0 <= i < |es'| && es'[i].Take? && es'[i].statement.Some?
      ensures !Ends(ws'[i].db, es'[i].statement.value, y)
    {
      assert es'[i] == es[i + 1];
    }
  }

  // ----- lookups whose three reads interleave with everything else -----

  /** At some moment up to n no environment was called by the label. */
  ghost predicate WasFree(ws: seq<World>, n: nat, name: string)
    requires n < |ws|
  {
    exists i :: 0 <= i <= n && !NameTaken(ws[i].db, name)
  }

  /** At some moment up to n the exposure was stored and unexpired under the label. */
  ghost predicate WasLive(ws: seq<World>, n: nat, name: string, x: Exposure)
    requires n < |ws|
  {
    exists i :: 0 <= i <= n && x in ws[i].db.exps.Values && Live(x, name, ws[i].clock)
  }

  /** At some moment up to n the environment row was the exposure's and not stopped. */
  ghost predicate WasUp(ws: seq<World>, n: nat, x: Exposure, env: Environment)
    requires n < |ws|
  {
    exists i :: 0 <= i <= n && x.environmentID in ws[i].db.envs && ws[i].db.envs[x.environmentID] == env &&
                env.status != Stopped
  }

  ghost predicate Backed(ws: seq<World>, n: nat, prog: Program)
    requires n < |ws|
  {
    match prog
    case RoutingUnnamed(name) => HasDelimiter(name) && WasFree(ws, n, name)
    case RoutingRow(name, x) => HasDelimiter(name) && WasFree(ws, n, name) && WasLive(ws, n, name, x)
    case Routed(name, x, env) => HasDelimiter(name) && WasFree(ws, n, name) && WasLive(ws, n, name, x) &&
                                 WasUp(ws, n, x, env)
    case _ => true
  }

  lemma BackedLater(ws: seq<World>, n: nat, prog: Program)
    requires n + 1 < |ws| && Backed(ws, n, prog)
    ensures Backed(ws, n + 1, prog)
  {
  }

  lemma BackedStep(s: Settings, ws: seq<World>, n: nat, prog: Program, st: Option<Statement>, next: Program)
    requires n + 1 < |ws| && Backed(ws, n, prog) && CanStep(s, ws[n], prog, st, Some(next))
    ensures Backed(ws, n + 1, next)
  {
    hide HasDelimiter, Prepare, Claim, HostName, NormalizedName;
    BackedLater(ws, n, prog);
    if prog.Routing? && next.RoutingUnnamed? {
      assert !NameTaken(ws[n].db, prog.name);
    }
    if prog.RoutingUnnamed? && next.RoutingRow? {
      assert ExposureByLabel(ws[n].db, prog.name, ws[n].clock) == Some(next.x);
    }
    if prog.RoutingRow? && next.Routed? {
      assert ws[n].db.envs[prog.x.environmentID] == next.env;
    }
  }

  /** Under every interleaving a lookup answers only with an exposure that was stored and unexpired under the
      label, a label that was no environment's name, and an environment that was up, each at the moment of its read. */
  lemma {:induction false} LookupsAreBacked(s: Settings, ws: seq<World>, es: seq<Event>, n: nat, p: nat)
    requires IsRun(s, ws, es) && ws[0].threads == map[] && n < |ws| && p in ws[n].threads
    ensures Backed(ws, n, ws[n].threads[p])
  {
    if n > 0 {
      hide Backed, CanStep, Starts;
      var w, e, w' := ws[n - 1], es[n - 1], ws[n];
      assert Next(s, w, e, w');
      if e.Spawn? && e.p == p {
        StartIsBacked(ws, n, e.start);
      } else if e.Take? && e.p == p {
        LookupsAreBacked(s, ws, es, n - 1, p);
        assert e.next == Some(w'.threads[p]);
        BackedStep(s, ws, n - 1, w.threads[p], e.statement, w'.threads[p]);
      } else {
        assert p in w.threads && w.threads[p] == w'.threads[p];
        LookupsAreBacked(s, ws, es, n - 1, p);
        BackedLater(ws, n - 1, w.threads[p]);
      }
    }
  }

  lemma StartIsBacked(ws: seq<World>, n: nat, start: Program)
    requires n < |ws| && Starts(start)
    ensures Backed(ws, n, start)
  {
  }

  /** The three moments can differ: a lookup that has read an exposure still answers with it after
      another handler has removed the row. */
  lemma LookupMayAnswerStale(s: Settings, w: World, p: nat, name: string, x: Exposure, q: nat, env: Environment,
                             given: string)
    requires Good(w) && p != q && p in w.threads && w.threads[p] == RoutingRow(name, x)
    requires q in w.threads && w.threads[q] == Found(env, Unregister(given))
    requires KeyOf(x) == Key(env.id, NormalizedName(given)) && KeyOf(x) in w.db.exps
    requires x.environmentID in w.db.envs && w.db.envs[x.environmentID].status != Stopped
    ensures exists ws: seq<World>, es: seq<Event> :: IsRun(s, ws, es) && ws[0] == w && |es| == 2 && p in ws[2].threads
              && ws[2].threads[p] == Routed(name, x, w.db.envs[x.environmentID])
              && KeyOf(x) !in ws[2].db.exps
  {
    hide NormalizedName, Good;
    var e1 := Take(q, Some(SDeleteExposure(KeyOf(x))), None);
    var w1 := World(DeleteExposure(w.db, KeyOf(x)), w.clock, Continue(w.threads, q, None));
    assert CanStep(s, w, w.threads[q], e1.statement, e1.next);
    assert Next(s, w, e1, w1);
    var next := Some(Routed(name, x, w.db.envs[x.environmentID]));
    var e2 := Take(p, None, next);
    var w2 := World(w1.db, w1.clock, Continue(w1.threads, p, next));
    assert w1.threads[p] == RoutingRow(name, x);
    assert CanStep(s, w1, w1.threads[p], None, next);
    assert Next(s, w1, e2, w2);
    var ws, es := [w, w1, w2], [e1, e2];
    assert IsRun(s, ws, es);
  }
}
