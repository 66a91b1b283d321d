/** Host lookups among other programs: when their answer is current, and a run in which it is not. */
module Lookups {
  import opened Options
  import opened Zones
  import opened Text
  import opened Names
  import opened Tables
  import opened Reconciling
  import opened App
  import opened Relay

  // ---- When the answer is current ----

  /** Program p makes its three reads at i, j and k: the label is no environment's name, x is live under it, and env
      is the row of x's environment and up. */
  ghost predicate ReadsAt(ws: seq<World>, es: seq<Event>, p: nat, name: string, x: Exposure, env: Environment, i: nat,
                          j: nat, k: nat)
    requires |ws| == |es| + 1
  {
    && i < j < k < |es|
    && p in ws[i].threads && ws[i].threads[p] == Routing(name) && es[i] == Take(p, None, Some(RoutingUnnamed(name)))
    && p in ws[j].threads && ws[j].threads[p] == RoutingUnnamed(name) &&
       es[j] == Take(p, None, Some(RoutingRow(name, x)))
    && p in ws[k].threads && ws[k].threads[p] == RoutingRow(name, x) &&
       es[k] == Take(p, None, Some(Routed(name, x, env)))
  }

  /** The statements that displace the exposure: it is deleted or written again, or an environment takes its label. */
  predicate Displaces(st: Statement, x: Exposure) {
    match st
    case SUpsertEnv(env) => env.name == x.hostLabel
    case SDeleteExposuresOf(id) => id == x.environmentID
    case SUpsertExposure(y) => KeyOf(y) == KeyOf(x)
    case SDeleteExposure(k) => k == KeyOf(x)
    case _ => false
  }

  ghost predicate Undisturbed(ws: seq<World>, es: seq<Event>, x: Exposure, i: nat, k: nat)
    requires |ws| == |es| + 1 && k <= |es|
  {
    forall n :: i <= n < k && es[n].Take? && es[n].statement.Some? ==> !Displaces(es[n].statement.value, x)
  }

  lemma FreeStays(db: DB, st: Statement, now: int, x: Exposure)
    requires !NameTaken(db, x.hostLabel) && !Displaces(st, x)
    ensures !NameTaken(Execute(db, st, now), x.hostLabel)
  {
  }

  lemma {:induction false} LabelStaysFree(s: Settings, ws: seq<World>, es: seq<Event>, x: Exposure, i: nat, k: nat)
    requires IsRun(s, ws, es) && i <= k <= |es| && !NameTaken(ws[i].db, x.hostLabel) && Undisturbed(ws, es, x, i, k)
    ensures !NameTaken(ws[k].db, x.hostLabel)
    decreases k
  {
    hide CanStep, NameTaken, Execute, Displaces;
    if i < k {
      LabelStaysFree(s, ws, es, x, i, k - 1);
      var e := es[k - 1];
      assert Next(s, ws[k - 1], e, ws[k]);
      if e.Take? && e.statement.Some? {
        FreeStays(ws[k - 1].db, e.statement.value, ws[k - 1].clock, x);
      }
    }
  }

  predicate Held(db: DB, x: Exposure) {
    KeyOf(x) in db.exps && db.exps[KeyOf(x)] == x
  }

  lemma HeldStays(db: DB, st: Statement, now: int, x: Exposure)
    requires Held(db, x) && !Displaces(st, x) && now < x.expiresAt
    ensures Held(Execute(db, st, now), x)
  {
  }

  lemma {:induction false} ClockRises(s: Settings, ws: seq<World>, es: seq<Event>, i: nat, k: nat)
    requires IsRun(s, ws, es) && i <= k <= |es|
    ensures ws[i].clock <= ws[k].clock
    decreases k
  {
    hide CanStep;
    if i < k {
      ClockRises(s, ws, es, i, k - 1);
      assert Next(s, ws[k - 1], es[k - 1], ws[k]);
    }
  }

  lemma {:induction false} ExposureStaysHeld(s: Settings, ws: seq<World>, es: seq<Event>, x: Exposure, i: nat, k: nat)
    requires IsRun(s, ws, es) && i <= k <= |es| && Held(ws[i].db, x) && Undisturbed(ws, es, x, i, k) &&
             ws[k].clock < x.expiresAt
    ensures Held(ws[k].db, x)
    decreases k
  {
    hide CanStep, Held, Execute, Displaces;
    if i < k {
      ClockRises(s, ws, es, k - 1, k);
      ExposureStaysHeld(s, ws, es, x, i, k - 1);
      var e := es[k - 1];
      assert Next(s, ws[k - 1], e, ws[k]);
      if e.Take? && e.statement.Some? {
        HeldStays(ws[k - 1].db, e.statement.value, ws[k - 1].clock, x);
      }
    }
  }

  /** What the reads of a lookup found. */
  lemma ReadsFound(s: Settings, ws: seq<World>, es: seq<Event>, p: nat, name: string, x: Exposure, env: Environment,
                   i: nat, j: nat, k: nat)
    requires IsRun(s, ws, es) && ReadsAt(ws, es, p, name, x, env, i, j, k) && Good(ws[j])
    ensures !NameTaken(ws[i].db, name) && HasDelimiter(name)
    ensures Held(ws[j].db, x) && x.hostLabel == name
    ensures x.environmentID in ws[k].db.envs && ws[k].db.envs[x.environmentID] == env && env.status != Stopped
  {
    hide HasDelimiter, GoodName, GoodExposure;
    assert Next(s, ws[i], es[i], ws[i + 1]);
    assert Next(s, ws[j], es[j], ws[j + 1]);
    assert Next(s, ws[k], es[k], ws[k + 1]);
    assert ExposureByLabel(ws[j].db, name, ws[j].clock) == Some(x);
  }

  /** The answer of a lookup among other programs is the answer of a lookup made at once, at its last read, exactly
      when the exposure is then still stored and unexpired and the label still no environment's name. */
  lemma LookupIsCurrentIff(s: Settings, ws: seq<World>, es: seq<Event>, p: nat, name: string, x: Exposure,
                           env: Environment, i: nat, j: nat, k: nat, zones: seq<string>, host: string)
    requires IsRun(s, ws, es) && Good(ws[0]) && ReadsAt(ws, es, p, name, x, env, i, j, k)
    requires ParseServed(host, zones).Some? && ParseServed(host, zones).value.name == name
    ensures LookupExposure(ws[k].db, zones, host, ws[k].clock) == Some(Route(env, x)) <==>
            Held(ws[k].db, x) && ws[k].clock < x.expiresAt && !NameTaken(ws[k].db, name)
  {
    hide CanStep, Next, HasDelimiter, ParseServed, NameTaken, LookupExposure, GoodName, GoodExposure, Execute;
    RunKeepsGood(s, ws, es);
    ReadsFound(s, ws, es, p, name, x, env, i, j, k);
    LookupExposureExact(ws[k].db, zones, host, ws[k].clock, Route(env, x));
  }

  /** And so it is when, between the reads, the exposure was neither deleted nor written again nor expired and no
      environment took the label. */
  lemma LookupIsCurrent(s: Settings, ws: seq<World>, es: seq<Event>, p: nat, name: string, x: Exposure,
                        env: Environment, i: nat, j: nat, k: nat, zones: seq<string>, host: string)
    requires IsRun(s, ws, es) && Good(ws[0]) && ReadsAt(ws, es, p, name, x, env, i, j, k)
    requires Undisturbed(ws, es, x, i, k) && ws[k].clock < x.expiresAt
    requires ParseServed(host, zones).Some? && ParseServed(host, zones).value.name == name
    ensures LookupExposure(ws[k].db, zones, host, ws[k].clock) == Some(Route(env, x))
  {
    hide Next, Good, HasDelimiter, ParseServed, NameTaken, LookupExposure, Held, Displaces;
    RunKeepsGood(s, ws, es);
    ReadsFound(s, ws, es, p, name, x, env, i, j, k);
    LabelStaysFree(s, ws, es, x, i, k);
    ExposureStaysHeld(s, ws, es, x, j, k);
    LookupIsCurrentIff(s, ws, es, p, name, x, env, i, j, k, zones, host);
  }

  // ---- A run with a stale answer ----

  /** Some run leads from an empty store to w. */
  ghost predicate Reached(s: Settings, w: World) {
    exists ws: seq<World>, es: seq<Event> ::
      IsRun(s, ws, es) && ws[0] == World(DB(map[], map[]), 1, map[]) && ws[|es|] == w
  }

  lemma Begins(s: Settings)
    ensures Reached(s, World(DB(map[], map[]), 1, map[]))
  {
    var w := World(DB(map[], map[]), 1, map[]);
    assert IsRun(s, [w], []);
  }

  lemma GoesOn(s: Settings, w: World, e: Event, w': World)
    requires Reached(s, w) && Next(s, w, e, w')
    ensures Reached(s, w')
  {
    hide Next;
    var ws: seq<World>, es: seq<Event> :|
      IsRun(s, ws, es) && ws[0] == World(DB(map[], map[]), 1, map[]) && ws[|es|] == w;
    assert IsRun(s, ws + [w'], es + [e]);
  }

  lemma Starting(s: Settings, w: World, p: nat, start: Program)
    requires Reached(s, w) && p !in w.threads && Starts(start)
    ensures Reached(s, w.(threads := w.threads[p := start]))
  {
    hide Reached, Starts, CanStep;
    GoesOn(s, w, Spawn(p, start), w.(threads := w.threads[p := start]));
  }

  lemma Taking(s: Settings, w: World, p: nat, statement: Option<Statement>, next: Option<Program>)
    requires Reached(s, w) && p in w.threads && CanStep(s, w, w.threads[p], statement, next)
    ensures var db := if statement.Some? then Execute(w.db, statement.value, w.clock) else w.db;
            Reached(s, World(db, w.clock, Continue(w.threads, p, next)))
  {
    hide Reached, CanStep, Execute;
    var db := if statement.Some? then Execute(w.db, statement.value, w.clock) else w.db;
    GoesOn(s, w, Take(p, statement, next), World(db, w.clock, Continue(w.threads, p, next)));
  }

  /** A container, and what is registered and looked up for it. */
  const BOX := Container("aaaaaaaaaaaa", "d", Some("e"), [], "i", Probe("", false), 1)
  const REQUEST := Request("w", "", 80, 60)

  function BoxRow(cfg: Config): Environment {
    Row(cfg, BOX, HostName(map[], BOX))
  }

  function BoxExposure(): Exposure {
    Exposure("d", "w", "e--w", "http", 80, 1, 1, 61)
  }

  lemma BoxIs(cfg: Config)
    ensures |BOX.id| >= 12 && DockerIDs([BOX]) && Effective(BOX) && BOX.(now := 1) == BOX
    ensures HostName(map[], BOX) == "e"
    ensures BoxRow(cfg).name == "e" && BoxRow(cfg).id == "d" && BoxRow(cfg).status == Running &&
            BoxRow(cfg).lastSeen == 1
  {
    hide PublishedHostname;
    assert LabelChar('e');
    SanitizeKeeps("e");
    hide SanitizeName;
  }

  lemma NameIsNormal()
    ensures NormalizedName("w") == "w" && HasDelimiter("e--w") && HostLabel("e", "w") == "e--w"
  {
    hide NormalizedName, LastDelimiter;
    assert LabelChar('w') && !HasPair("w");
    NormalizedKeeps("w");
    assert HostLabel("e", "w") == "e--w";
    DelimiterAtJoin("e", "w");
  }

  lemma RequestIsReady(cfg: Config)
    ensures Prepare(BoxRow(cfg), REQUEST, 1) == Ready(BoxExposure())
  {
    hide BoxRow, NormalizedName, HostLabel, Itoa, HasDelimiter;
    BoxIs(cfg);
    NameIsNormal();
    TrimIsTrimmed("", IsSpace);
  }

  function Pass1(cfg: Config): Program {
    Upserting(BoxRow(cfg), [], Claim(map[], BOX), {} + {BOX.id})
  }

  function Pass2(): Program {
    Discovering([], Claim(map[], BOX), {} + {BOX.id})
  }

  lemma PassSteps(s: Settings, w: World)
    requires w.clock == 1
    ensures CanStep(s, w, Discovering([BOX], map[], {}), None, Some(Pass1(s.cfg)))
    ensures CanStep(s, w, Pass1(s.cfg), Some(SUpsertEnv(BoxRow(s.cfg))), Some(Pass2()))
    ensures Starts(Discovering([BOX], map[], {}))
  {
    hide HostName, Claim, Row, DockerIDs;
    BoxIs(s.cfg);
    assert [BOX][1..] == [];
  }

  lemma RegisterSteps(s: Settings, w: World)
    requires w.clock == 1 && "d" in w.db.envs && w.db.envs["d"] == BoxRow(s.cfg)
    ensures CanStep(s, w, Finding("d", Register(REQUEST)), None, Some(Found(BoxRow(s.cfg), Register(REQUEST))))
    ensures CanStep(s, w, Found(BoxRow(s.cfg), Register(REQUEST)), None, Some(Writing(BoxExposure())))
    ensures CanStep(s, w, Writing(BoxExposure()), Some(SUpsertExposure(BoxExposure())), None)
  {
    hide BoxRow, Prepare;
    RequestIsReady(s.cfg);
  }

  lemma DeleteSteps(s: Settings, w: World)
    requires "d" in w.db.envs && w.db.envs["d"] == BoxRow(s.cfg)
    ensures CanStep(s, w, Finding("d", Unregister("w")), None, Some(Found(BoxRow(s.cfg), Unregister("w"))))
    ensures CanStep(s, w, Found(BoxRow(s.cfg), Unregister("w")), Some(SDeleteExposure(KeyOf(BoxExposure()))), None)
  {
    hide BoxRow, NormalizedName;
    BoxIs(s.cfg);
    NameIsNormal();
  }

  /** The tables once the container is found and its exposure registered. */
  function Full(cfg: Config): DB {
    DB(map["d" := BoxRow(cfg)], map[KeyOf(BoxExposure()) := BoxExposure()])
  }

  lemma FullReads(cfg: Config)
    ensures !NameTaken(Full(cfg), "e--w") && ExposureByLabel(Full(cfg), "e--w", 1) == Some(BoxExposure())
  {
    hide BoxRow;
    BoxIs(cfg);
    var k := KeyOf(BoxExposure());
    assert k in Full(cfg).exps && Full(cfg).exps[k] == BoxExposure() && LabelsUnique(Full(cfg));
    LabelIsOneRow(Full(cfg), k, 1);
  }

  lemma FirstReads(s: Settings, w: World)
    requires w.clock == 1 && w.db == Full(s.cfg)
    ensures CanStep(s, w, Routing("e--w"), None, Some(RoutingUnnamed("e--w")))
    ensures CanStep(s, w, RoutingUnnamed("e--w"), None, Some(RoutingRow("e--w", BoxExposure())))
  {
    hide HasDelimiter, Full, NameTaken, ExposureByLabel, BoxExposure;
    FullReads(s.cfg);
    NameIsNormal();
  }

  lemma LastRead(s: Settings, w: World)
    requires "d" in w.db.envs && w.db.envs["d"] == BoxRow(s.cfg)
    ensures CanStep(s, w, RoutingRow("e--w", BoxExposure()), None, Some(Routed("e--w", BoxExposure(), BoxRow(s.cfg))))
  {
    hide BoxRow;
    BoxIs(s.cfg);
  }

  lemma Written(cfg: Config)
    ensures var none, one := DB(map[], map[]), DB(map["d" := BoxRow(cfg)], map[]);
            && Execute(none, SUpsertEnv(BoxRow(cfg)), 1) == one
            && Execute(one, SUpsertExposure(BoxExposure()), 1) == Full(cfg)
  {
    hide BoxRow;
    BoxIs(cfg);
    assert Filled(BoxExposure(), 1) == BoxExposure();
  }

  /** Some run registers the exposure and leaves threads 2 and 3 free. */
  lemma Registered(s: Settings)
    ensures exists w :: Reached(s, w) && w.clock == 1 && w.db == Full(s.cfg) && 2 !in w.threads && 3 !in w.threads
  {
    hide Reached, CanStep, Starts, Execute, BoxRow, BoxExposure, Pass1, Pass2, Full;
    Begins(s);
    Written(s.cfg);
    var w0 := World(DB(map[], map[]), 1, map[]);
    PassSteps(s, w0);
    Starting(s, w0, 0, Discovering([BOX], map[], {}));
    var w1 := w0.(threads := w0.threads[0 := Discovering([BOX], map[], {})]);
    PassSteps(s, w1);
    Taking(s, w1, 0, None, Some(Pass1(s.cfg)));
    var w2 := World(w1.db, 1, w1.threads[0 := Pass1(s.cfg)]);
    PassSteps(s, w2);
    Taking(s, w2, 0, Some(SUpsertEnv(BoxRow(s.cfg))), Some(Pass2()));
    var w3 := World(DB(map["d" := BoxRow(s.cfg)], map[]), 1, w2.threads[0 := Pass2()]);
    FindingStarts(Register(REQUEST));
    Starting(s, w3, 1, Finding("d", Register(REQUEST)));
    var w4 := w3.(threads := w3.threads[1 := Finding("d", Register(REQUEST))]);
    RegisterSteps(s, w4);
    Taking(s, w4, 1, None, Some(Found(BoxRow(s.cfg), Register(REQUEST))));
    var w5 := World(w4.db, 1, w4.threads[1 := Found(BoxRow(s.cfg), Register(REQUEST))]);
    RegisterSteps(s, w5);
    Taking(s, w5, 1, None, Some(Writing(BoxExposure())));
    var w6 := World(w5.db, 1, w5.threads[1 := Writing(BoxExposure())]);
    RegisterSteps(s, w6);
    Taking(s, w6, 1, Some(SUpsertExposure(BoxExposure())), None);
    var w7 := World(Full(s.cfg), 1, w6.threads - {1});
    assert Reached(s, w7) && 2 !in w7.threads && 3 !in w7.threads;
  }

  lemma FindingStarts(purpose: Purpose)
    ensures Starts(Finding("d", purpose)) && Starts(Routing("e--w"))
  {
  }

  /** A lookup can answer with an exposure that is gone: a run from an empty store in which a container is found, an
      exposure registered, looked up, and deleted while the lookup is on its way. */
  lemma StaleAnswerIsReached(s: Settings)
    ensures exists w, p, name, x, env ::
              Reached(s, w) && p in w.threads && w.threads[p] == Routed(name, x, env) && KeyOf(x) !in w.db.exps
  {
    hide Reached, CanStep, Starts, Execute, BoxRow, BoxExposure, Full;
    Registered(s);
    FullHas(s.cfg);
    var x, row, u := BoxExposure(), BoxRow(s.cfg), Unregister("w");
    var w0 :| Reached(s, w0) && w0.clock == 1 && w0.db == Full(s.cfg) && 2 !in w0.threads && 3 !in w0.threads;
    FindingStarts(u);
    Starting(s, w0, 2, Routing("e--w"));
    var w1 := w0.(threads := w0.threads[2 := Routing("e--w")]);
    FirstReads(s, w1);
    Taking(s, w1, 2, None, Some(RoutingUnnamed("e--w")));
    var w2 := World(w1.db, 1, w1.threads[2 := RoutingUnnamed("e--w")]);
    FirstReads(s, w2);
    Taking(s, w2, 2, None, Some(RoutingRow("e--w", x)));
    var w3 := World(w2.db, 1, w2.threads[2 := RoutingRow("e--w", x)]);
    Starting(s, w3, 3, Finding("d", u));
    var w4 := w3.(threads := w3.threads[3 := Finding("d", u)]);
    DeleteSteps(s, w4);
    Taking(s, w4, 3, None, Some(Found(row, u)));
    var w5 := World(w4.db, 1, w4.threads[3 := Found(row, u)]);
    DeleteSteps(s, w5);
    Taking(s, w5, 3, Some(SDeleteExposure(KeyOf(x))), None);
    var w6 := World(DeleteExposure(Full(s.cfg), KeyOf(x)), 1, w5.threads - {3});
    DeletedIs(s.cfg);
    LastRead(s, w6);
    Taking(s, w6, 2, None, Some(Routed("e--w", x, row)));
    var w7 := World(w6.db, 1, w6.threads[2 := Routed("e--w", x, row)]);
    assert Reached(s, w7) && w7.threads[2] == Routed("e--w", x, row);
  }

  lemma FullHas(cfg: Config)
    ensures "d" in Full(cfg).envs && Full(cfg).envs["d"] == BoxRow(cfg)
  {
    hide BoxRow;
  }

  lemma DeletedIs(cfg: Config)
    ensures var gone := DeleteExposure(Full(cfg), KeyOf(BoxExposure()));
            && Execute(Full(cfg), SDeleteExposure(KeyOf(BoxExposure())), 1) == gone
            && "d" in gone.envs && gone.envs["d"] == BoxRow(cfg) && KeyOf(BoxExposure()) !in gone.exps
  {
    hide BoxRow;
  }
}
