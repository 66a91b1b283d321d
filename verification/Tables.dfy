/** The two tables of the relay's database, one function for each SQL statement. */
module Tables {
  import opened Options
  import opened Text
  import opened Sorting

  datatype Status = Running | Unreachable | Stopped

  datatype Environment = Environment(id: string, containerID: string, name: string, hostname: string, ip: string,
                                     port: int, status: Status, probeJSON: string, firstSeen: int, lastSeen: int)

  datatype Exposure = Exposure(environmentID: string, name: string, hostLabel: string, scheme: string, port: int,
                               createdAt: int, lastSeen: int, expiresAt: int)

  /** PRIMARY KEY (environment_id, name) */
  datatype Key = Key(environmentID: string, name: string)

  function KeyOf(x: Exposure): Key {
    Key(x.environmentID, x.name)
  }

  datatype DB = DB(envs: map<string, Environment>, exps: map<Key, Exposure>)

  /** Each row is stored under its own primary key. */
  ghost predicate Keyed(db: DB) {
    && (forall id :: id in db.envs ==> db.envs[id].id == id)
    && (forall k :: k in db.exps ==> KeyOf(db.exps[k]) == k)
  }

  /** host_label TEXT NOT NULL UNIQUE */
  ghost predicate LabelsUnique(db: DB) {
    forall k, l :: k in db.exps && l in db.exps && db.exps[k].hostLabel == db.exps[l].hostLabel ==> k == l
  }

  /** INSERT INTO environments ... ON CONFLICT(id) DO UPDATE: everything but first_seen is replaced. */
  function UpsertEnv(db: DB, given: Environment, now: int): DB {
    var env := if given.lastSeen == 0 then given.(lastSeen := now) else given;
    var row := if env.id in db.envs then env.(firstSeen := db.envs[env.id].firstSeen) else env;
    db.(envs := db.envs[env.id := row])
  }

  function Stop(env: Environment): Environment {
    env.(status := Stopped)
  }

  /** UPDATE environments SET status='stopped' WHERE container_id = ? */
  function MarkStopped(db: DB, containerID: string): DB {
    db.(envs := map id | id in db.envs ::
          if db.envs[id].containerID == containerID then Stop(db.envs[id]) else db.envs[id])
  }

  /** DELETE FROM exposures WHERE environment_id = ? */
  function DeleteExposuresOf(db: DB, id: string): DB {
    db.(exps := map k | k in db.exps && db.exps[k].environmentID != id :: db.exps[k])
  }

  /** DELETE FROM environments WHERE id = ?: no cascade, foreign keys are off. */
  function DeleteEnv(db: DB, id: string): DB {
    db.(envs := db.envs - {id})
  }

  /** The defaults UpsertExposure fills in before it writes. */
  function Filled(x: Exposure, now: int): Exposure {
    x.(createdAt := if x.createdAt == 0 then now else x.createdAt,
       lastSeen := if x.lastSeen == 0 then now else x.lastSeen)
  }

  /** Another row already holds this host label. */
  predicate LabelTaken(db: DB, x: Exposure) {
    exists k :: k in db.exps && k != KeyOf(x) && db.exps[k].hostLabel == x.hostLabel
  }

  /** INSERT INTO exposures ... ON CONFLICT(environment_id, name) DO UPDATE: a label held by another
      row makes the statement fail; a refreshed row keeps its created_at. */
  function UpsertExposure(db: DB, given: Exposure, now: int): Option<DB> {
    var x := Filled(given, now);
    var k := KeyOf(x);
    if LabelTaken(db, x) then None
    else Some(db.(exps := db.exps[k := if k in db.exps then x.(createdAt := db.exps[k].createdAt) else x]))
  }

  function DeleteExposure(db: DB, k: Key): DB {
    db.(exps := db.exps - {k})
  }

  /** DELETE FROM exposures WHERE expires_at <= ? */
  function DeleteExpired(db: DB, now: int): DB {
    db.(exps := map k | k in db.exps && db.exps[k].expiresAt > now :: db.exps[k])
  }

  /** WHERE host_label = ? AND expires_at > ? */
  predicate Live(x: Exposure, wanted: string, now: int) {
    x.hostLabel == wanted && x.expiresAt > now
  }

  ghost function ExposureByLabel(db: DB, wanted: string, now: int): (r: Option<Exposure>)
    ensures r.Some? ==> r.value in db.exps.Values && Live(r.value, wanted, now)
    ensures r.None? ==> forall k :: k in db.exps ==> !Live(db.exps[k], wanted, now)
  {
    if exists k :: k in db.exps && Live(db.exps[k], wanted, now) then
      var k :| k in db.exps && Live(db.exps[k], wanted, now);
      Some(db.exps[k])
    else None
  }

  predicate NameBefore(a: Exposure, b: Exposure) {
    LexLess(a.name, b.name)
  }

  /** WHERE environment_id = ? AND expires_at > ? ORDER BY name */
  ghost predicate IsListing(db: DB, id: string, now: int, rows: seq<Exposure>) {
    && Ordered(rows, NameBefore)
    && forall x :: x in rows <==>
         exists k :: k in db.exps && db.exps[k] == x && x.environmentID == id && x.expiresAt > now
  }

  /** Some environment is called name. */
  predicate NameTaken(db: DB, name: string) {
    exists id :: id in db.envs && db.envs[id].name == name
  }

  lemma LabelIsOneRow(db: DB, k: Key, now: int)
    requires LabelsUnique(db) && k in db.exps && db.exps[k].expiresAt > now
    ensures ExposureByLabel(db, db.exps[k].hostLabel, now) == Some(db.exps[k])
  {
    var r := ExposureByLabel(db, db.exps[k].hostLabel, now);
    assert Live(db.exps[k], db.exps[k].hostLabel, now);
    var l :| l in db.exps && db.exps[l] == r.value;
  }

  /** A write that succeeds keeps keys and labels unique. */
  lemma UpsertExposureKeepsKeys(db: DB, given: Exposure, now: int)
    requires Keyed(db) && LabelsUnique(db)
    ensures var r := UpsertExposure(db, given, now);
            r.Some? ==> Keyed(r.value) && LabelsUnique(r.value)
  {
  }

  /** The rows a reader can see at time now. */
  function Visible(db: DB, now: int): map<Key, Exposure> {
    map k | k in db.exps && db.exps[k].expiresAt > now :: db.exps[k]
  }

  /** Both readers depend on the visible rows alone. */
  lemma ReadersSeeVisible(a: DB, b: DB, wanted: string, id: string, now: int, rows: seq<Exposure>)
    requires LabelsUnique(a) && LabelsUnique(b)
    requires Visible(a, now) == Visible(b, now)
    ensures ExposureByLabel(a, wanted, now) == ExposureByLabel(b, wanted, now)
    ensures IsListing(a, id, now, rows) <==> IsListing(b, id, now, rows)
  {
    var va, vb := Visible(a, now), Visible(b, now);
    assert forall k :: k in a.exps && a.exps[k].expiresAt > now <==> k in va;
    assert forall k :: k in b.exps && b.exps[k].expiresAt > now <==> k in vb;
    var ra, rb := ExposureByLabel(a, wanted, now), ExposureByLabel(b, wanted, now);
    if ra.Some? {
      var k :| k in a.exps && a.exps[k] == ra.value;
      assert k in va && vb[k] == ra.value;
      LabelIsOneRow(b, k, now);
    }
    if IsListing(a, id, now, rows) { ListingFromVisible(a, b, id, now, rows); }
    if IsListing(b, id, now, rows) { ListingFromVisible(b, a, id, now, rows); }
  }

  lemma ListingFromVisible(a: DB, b: DB, id: string, now: int, rows: seq<Exposure>)
    requires Visible(a, now) == Visible(b, now) && IsListing(a, id, now, rows)
    ensures IsListing(b, id, now, rows)
  {
    forall x ensures x in rows <==>
      exists k :: k in b.exps && b.exps[k] == x && x.environmentID == id && x.expiresAt > now
    {
      if x in rows {
        var k :| k in a.exps && a.exps[k] == x && x.environmentID == id && x.expiresAt > now;
        assert k in Visible(a, now) && Visible(b, now)[k] == x;
      }
      if k :| k in b.exps && b.exps[k] == x && x.environmentID == id && x.expiresAt > now {
        assert k in Visible(b, now) && Visible(a, now)[k] == x;
      }
    }
  }

  /** Statements on the two tables, as the handlers issue them. */
  datatype Statement =
    | SUpsertEnv(env: Environment)
    | SMarkStopped(containerID: string)
    | SDeleteExposuresOf(id: string)
    | SDeleteEnv(id: string)
    | SUpsertExposure(x: Exposure)
    | SDeleteExposure(k: Key)
    | SDeleteExpired

  datatype Timed = Timed(at: int, s: Statement)

  /** A failing statement leaves the tables as they were. */
  function Execute(db: DB, s: Statement, now: int): DB {
    match s
    case SUpsertEnv(env) => UpsertEnv(db, env, now)
    case SMarkStopped(c) => MarkStopped(db, c)
    case SDeleteExposuresOf(id) => DeleteExposuresOf(db, id)
    case SDeleteEnv(id) => DeleteEnv(db, id)
    case SUpsertExposure(x) => var r := UpsertExposure(db, x, now); if r.Some? then r.value else db
    case SDeleteExposure(k) => DeleteExposure(db, k)
    case SDeleteExpired => DeleteExpired(db, now)
  }

  lemma ExecuteKeepsKeys(db: DB, s: Statement, now: int)
    requires Keyed(db) && LabelsUnique(db)
    ensures Keyed(Execute(db, s, now)) && LabelsUnique(Execute(db, s, now))
  {
    if s.SUpsertExposure? { UpsertExposureKeepsKeys(db, s.x, now); }
  }

  function Undated(x: Exposure): Exposure {
    x.(createdAt := 0)
  }

  /** x and y are the same row, but for created_at if their key is in lost. */
  predicate SameRow(x: Exposure, y: Exposure, lost: set<Key>) {
    Undated(x) == Undated(y) && (KeyOf(x) !in lost ==> x == y)
  }

  /** a is b plus rows that had expired by time t; rows under the keys in lost may differ in created_at. */
  ghost predicate Swept(a: DB, b: DB, t: int, lost: set<Key>) {
    && a.envs == b.envs
    && (forall k :: k in b.exps ==> k in a.exps && SameRow(a.exps[k], b.exps[k], lost))
    && (forall k :: k in a.exps && k !in b.exps ==> a.exps[k].expiresAt <= t)
  }

  /** The upsert would meet a row of another key that has its label and had expired by time t. */
  predicate MeetsOther(db: DB, x: Exposure, t: int) {
    exists k :: k in db.exps && k != KeyOf(x) && db.exps[k].expiresAt <= t && db.exps[k].hostLabel == x.hostLabel
  }

  /** The upsert would meet its own row, expired by time t. */
  predicate MeetsOwn(db: DB, x: Exposure, t: int) {
    KeyOf(x) in db.exps && db.exps[KeyOf(x)].expiresAt <= t
  }

  /** The key under which a statement refreshes a row that had expired by time t. */
  function LostBy(db: DB, s: Statement, t: int): set<Key> {
    if s.SUpsertExposure? && MeetsOwn(db, s.x, t) then {KeyOf(s.x)} else {}
  }

  /** Extra expired rows stay expired and unseen, statement after statement; a refresh of one of them hands its
      created_at down on one side only. */
  lemma SweptStep(a: DB, b: DB, s: Statement, t: int, now: int, lost: set<Key>)
    requires Keyed(a) && Keyed(b) && Swept(a, b, t, lost) && t <= now
    requires s.SUpsertExposure? ==> !MeetsOther(a, s.x, t)
    ensures Swept(Execute(a, s, now), Execute(b, s, now), t, lost + LostBy(a, s, t))
  {
    if s.SUpsertExposure? {
      var x := Filled(s.x, now);
      assert KeyOf(x) == KeyOf(s.x) && x.hostLabel == s.x.hostLabel;
      if LabelTaken(a, x) {
        var k :| k in a.exps && k != KeyOf(x) && a.exps[k].hostLabel == x.hostLabel;
        assert k in b.exps;
      }
      assert LabelTaken(a, x) <==> LabelTaken(b, x);
    }
  }

  function ExecuteAll(db: DB, run: seq<Timed>): DB
    decreases |run|
  {
    if run == [] then db else ExecuteAll(Execute(db, run[0].s, run[0].at), run[1..])
  }

  /** Times never go back, and none is earlier than from. */
  predicate Timely(run: seq<Timed>, from: int)
    decreases |run|
  {
    run == [] || (from <= run[0].at && Timely(run[1..], run[0].at))
  }

  /** Some upsert of the run meets a row of another key that has its label and had expired by time t. */
  predicate SomeMeetsOther(db: DB, run: seq<Timed>, t: int)
    decreases |run|
  {
    run != [] &&
    ((run[0].s.SUpsertExposure? && MeetsOther(db, run[0].s.x, t))
     || SomeMeetsOther(Execute(db, run[0].s, run[0].at), run[1..], t))
  }

  /** The keys under which the run refreshes rows that had expired by time t. */
  function LostKeys(db: DB, run: seq<Timed>, t: int): set<Key>
    decreases |run|
  {
    if run == [] then {}
    else LostBy(db, run[0].s, t) + LostKeys(Execute(db, run[0].s, run[0].at), run[1..], t)
  }

  function EndTime(run: seq<Timed>, from: int): int {
    if run == [] then from else run[|run| - 1].at
  }

  lemma {:induction false} SweptRun(a: DB, b: DB, run: seq<Timed>, t: int, from: int, lost: set<Key>)
    requires Keyed(a) && Keyed(b) && LabelsUnique(a) && LabelsUnique(b)
    requires Swept(a, b, t, lost) && t <= from && Timely(run, from) && !SomeMeetsOther(a, run, t)
    ensures Swept(ExecuteAll(a, run), ExecuteAll(b, run), t, lost + LostKeys(a, run, t)) && t <= EndTime(run, from)
    decreases |run|
  {
    hide Swept, Execute, Keyed, LabelsUnique, LostBy, MeetsOther;
    if run == [] {
      assert lost + {} == lost;
    } else {
      var s, at := run[0].s, run[0].at;
      SweptStep(a, b, s, t, at, lost);
      ExecuteKeepsKeys(a, s, at);
      ExecuteKeepsKeys(b, s, at);
      SweptRun(Execute(a, s, at), Execute(b, s, at), run[1..], t, at, lost + LostBy(a, s, t));
      assert lost + LostBy(a, s, t) + LostKeys(Execute(a, s, at), run[1..], t) == lost + LostKeys(a, run, t);
    }
  }

  lemma {:induction false} ExecuteAllKeepsKeys(db: DB, run: seq<Timed>)
    requires Keyed(db) && LabelsUnique(db)
    ensures Keyed(ExecuteAll(db, run)) && LabelsUnique(ExecuteAll(db, run))
    decreases |run|
  {
    if run != [] {
      ExecuteKeepsKeys(db, run[0].s, run[0].at);
      ExecuteAllKeepsKeys(Execute(db, run[0].s, run[0].at), run[1..]);
    }
  }

  /** Both readers answer the same rows on two swept stores, but for created_at under the keys in lost. */
  lemma SweptLabel(a: DB, b: DB, t: int, lost: set<Key>, now: int, wanted: string)
    requires LabelsUnique(a) && LabelsUnique(b) && Swept(a, b, t, lost) && t <= now
    ensures var r, r' := ExposureByLabel(a, wanted, now), ExposureByLabel(b, wanted, now);
            (r.None? <==> r'.None?) && (r.Some? ==> SameRow(r.value, r'.value, lost))
  {
    var r, r' := ExposureByLabel(a, wanted, now), ExposureByLabel(b, wanted, now);
    if r.Some? {
      var k :| k in a.exps && a.exps[k] == r.value;
      assert k in b.exps && Live(b.exps[k], wanted, now);
      LabelIsOneRow(b, k, now);
    }
    assert forall k :: k in b.exps && Live(b.exps[k], wanted, now) ==> Live(a.exps[k], wanted, now);
  }

  function UndatedRows(rows: seq<Exposure>): (r: seq<Exposure>)
    ensures |r| == |rows|
  {
    seq(|rows|, i requires 0 <= i < |rows| => Undated(rows[i]))
  }

  /** The listing shows the row z, its created_at aside. */
  ghost predicate Lists(db: DB, id: string, now: int, z: Exposure) {
    exists k :: k in db.exps && Undated(db.exps[k]) == z && z.environmentID == id && z.expiresAt > now
  }

  lemma ListingLists(db: DB, id: string, now: int, rows: seq<Exposure>)
    requires IsListing(db, id, now, rows)
    ensures Ordered(UndatedRows(rows), NameBefore)
    ensures forall z :: z in UndatedRows(rows) <==> Lists(db, id, now, z)
  {
    var zs := UndatedRows(rows);
    forall z ensures z in zs <==> Lists(db, id, now, z) {
      if z in zs {
        var i :| 0 <= i < |zs| && zs[i] == z;
        assert rows[i] in rows;
      }
      if Lists(db, id, now, z) {
        var k :| k in db.exps && Undated(db.exps[k]) == z && z.environmentID == id && z.expiresAt > now;
        assert db.exps[k] in rows;
        var i :| 0 <= i < |rows| && rows[i] == db.exps[k];
        assert zs[i] == z;
      }
    }
  }

  lemma SweptLists(a: DB, b: DB, t: int, lost: set<Key>, now: int, id: string, z: Exposure)
    requires Swept(a, b, t, lost) && t <= now
    ensures Lists(a, id, now, z) <==> Lists(b, id, now, z)
  {
    if Lists(a, id, now, z) {
      var k :| k in a.exps && Undated(a.exps[k]) == z && z.environmentID == id && z.expiresAt > now;
      assert k in b.exps && Undated(b.exps[k]) == z;
    }
    if Lists(b, id, now, z) {
      var k :| k in b.exps && Undated(b.exps[k]) == z && z.environmentID == id && z.expiresAt > now;
      assert Undated(a.exps[k]) == z;
    }
  }

  lemma NamesOrder(x: Exposure, y: Exposure)
    ensures !(NameBefore(x, y) && NameBefore(y, x))
  {
    LexTotal(x.name, y.name);
  }

  lemma SweptListing(a: DB, b: DB, t: int, lost: set<Key>, now: int, id: string, rows: seq<Exposure>,
                     rows': seq<Exposure>)
    requires Keyed(a) && Keyed(b) && Swept(a, b, t, lost) && t <= now
    requires IsListing(a, id, now, rows) && IsListing(b, id, now, rows')
    ensures |rows| == |rows'| && forall i :: 0 <= i < |rows| ==> SameRow(rows[i], rows'[i], lost)
  {
    hide NameBefore;
    var zs, zs' := UndatedRows(rows), UndatedRows(rows');
    ListingLists(a, id, now, rows);
    ListingLists(b, id, now, rows');
    forall z ensures z in zs <==> z in zs' {
      SweptLists(a, b, t, lost, now, id, z);
    }
    forall x, y | x in zs && y in zs ensures !(NameBefore(x, y) && NameBefore(y, x)) {
      NamesOrder(x, y);
    }
    OrderedUnique(zs, zs', NameBefore);
    forall i | 0 <= i < |rows| ensures SameRow(rows[i], rows'[i], lost) {
      assert Undated(rows[i]) == zs[i] == zs'[i] == Undated(rows'[i]);
      assert rows[i] in rows && rows'[i] in rows';
      SameKeySameRow(a, b, t, lost, id, now, rows, rows', i);
    }
  }

  lemma SameKeySameRow(a: DB, b: DB, t: int, lost: set<Key>, id: string, now: int, rows: seq<Exposure>,
                       rows': seq<Exposure>, i: nat)
    requires Keyed(a) && Keyed(b) && Swept(a, b, t, lost) && IsListing(a, id, now, rows) && IsListing(b, id, now, rows')
    requires i < |rows| && i < |rows'| && Undated(rows[i]) == Undated(rows'[i])
    ensures SameRow(rows[i], rows'[i], lost)
  {
    assert rows[i] in rows && rows'[i] in rows';
    var k :| k in a.exps && a.exps[k] == rows[i];
    var k' :| k' in b.exps && b.exps[k'] == rows'[i];
    assert k == KeyOf(Undated(rows[i])) && k' == KeyOf(Undated(rows'[i]));
  }

  /** Sweeping at time t changes no later read, whatever statements run in between, as long as no upsert among them
      meets the label of another key's row that the sweep would have removed. Only the created_at of exposures that
      the run registered again, having lapsed by t, can differ. */
  lemma SweepIsInvisible(db: DB, t: int, run: seq<Timed>, now: int, wanted: string, id: string, rows: seq<Exposure>,
                         rows': seq<Exposure>)
    requires Keyed(db) && LabelsUnique(db)
    requires Timely(run, t) && EndTime(run, t) <= now && !SomeMeetsOther(db, run, t)
    ensures var a, b, lost := ExecuteAll(db, run), ExecuteAll(DeleteExpired(db, t), run), LostKeys(db, run, t);
            var r, r' := ExposureByLabel(a, wanted, now), ExposureByLabel(b, wanted, now);
            && (r.None? <==> r'.None?) && (r.Some? ==> SameRow(r.value, r'.value, lost))
            && (IsListing(a, id, now, rows) && IsListing(b, id, now, rows') ==>
                  |rows| == |rows'| && forall i :: 0 <= i < |rows| ==> SameRow(rows[i], rows'[i], lost))
  {
    hide *;
    var swept, lost := DeleteExpired(db, t), LostKeys(db, run, t);
    SweepIsSwept(db, t);
    SweptRun(db, swept, run, t, t, {});
    assert {} + lost == lost;
    ExecuteAllKeepsKeys(db, run);
    ExecuteAllKeepsKeys(swept, run);
    var a, b := ExecuteAll(db, run), ExecuteAll(swept, run);
    SweptLabel(a, b, t, lost, now, wanted);
    if IsListing(a, id, now, rows) && IsListing(b, id, now, rows') {
      SweptListing(a, b, t, lost, now, id, rows, rows');
    }
  }

  /** So when none was registered again, both readers answer exactly the same. */
  lemma SweepIsInvisibleStrictly(db: DB, t: int, run: seq<Timed>, now: int, wanted: string, id: string,
                                 rows: seq<Exposure>)
    requires Keyed(db) && LabelsUnique(db)
    requires Timely(run, t) && EndTime(run, t) <= now && !SomeMeetsOther(db, run, t) && LostKeys(db, run, t) == {}
    ensures var a, b := ExecuteAll(db, run), ExecuteAll(DeleteExpired(db, t), run);
            && ExposureByLabel(a, wanted, now) == ExposureByLabel(b, wanted, now)
            && (IsListing(a, id, now, rows) <==> IsListing(b, id, now, rows))
  {
    hide *;
    var swept := DeleteExpired(db, t);
    SweepIsSwept(db, t);
    SweptRun(db, swept, run, t, t, {});
    ExecuteAllKeepsKeys(db, run);
    ExecuteAllKeepsKeys(swept, run);
    var a, b := ExecuteAll(db, run), ExecuteAll(swept, run);
    assert {} + LostKeys(db, run, t) == {};
    SweptVisible(a, b, t, now);
    ReadersSeeVisible(a, b, wanted, id, now, rows);
  }

  lemma SweepIsSwept(db: DB, t: int)
    requires Keyed(db) && LabelsUnique(db)
    ensures Swept(db, DeleteExpired(db, t), t, {})
    ensures Keyed(DeleteExpired(db, t)) && LabelsUnique(DeleteExpired(db, t))
  {
  }

  lemma SweptVisible(a: DB, b: DB, t: int, now: int)
    requires Keyed(a) && Swept(a, b, t, {}) && t <= now
    ensures Visible(a, now) == Visible(b, now)
  {
  }

  /** The upsert's outcome changes exactly when an expired row of another key holds the label:
      then it fails without the sweep and succeeds after it. */
  lemma SweepAndUpsert(db: DB, x: Exposure, now: int)
    requires Keyed(db) && LabelsUnique(db)
    ensures UpsertExposure(db, x, now).Some? ==> UpsertExposure(DeleteExpired(db, now), x, now).Some?
    ensures UpsertExposure(db, x, now).None? && UpsertExposure(DeleteExpired(db, now), x, now).Some? <==>
            exists k :: k in db.exps && k != KeyOf(x) && db.exps[k].hostLabel == x.hostLabel &&
                        db.exps[k].expiresAt <= now
  {
    var y := Filled(x, now);
    assert KeyOf(y) == KeyOf(x) && y.hostLabel == x.hostLabel;
    var swept := DeleteExpired(db, now);
    if LabelTaken(db, y) {
      var k :| k in db.exps && k != KeyOf(y) && db.exps[k].hostLabel == y.hostLabel;
      assert k in swept.exps <==> db.exps[k].expiresAt > now;
    }
  }

  /** A refresh that succeeds either way stores the same row in both cases exactly when it does not
      find its own key expired: an unswept row would have handed down its created_at. */
  lemma SweepAndRefresh(db: DB, x: Exposure, now: int)
    requires Keyed(db) && LabelsUnique(db) && UpsertExposure(db, x, now).Some?
    ensures var a, b := UpsertExposure(db, x, now), UpsertExposure(DeleteExpired(db, now), x, now);
            && b.Some?
            && (a.value.exps[KeyOf(x)] == b.value.exps[KeyOf(x)] <==>
                !(KeyOf(x) in db.exps && db.exps[KeyOf(x)].expiresAt <= now
                  && db.exps[KeyOf(x)].createdAt != Filled(x, now).createdAt))
  {
    SweepAndUpsert(db, x, now);
    var y := Filled(x, now);
    assert KeyOf(y) == KeyOf(x);
  }
}
