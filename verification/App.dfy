/** The relay application: served zones, host lookups and the request handlers, each run to its end
    without interruption. Relay.dfy lets their statements interleave. */
module App {
  import opened Options
  import opened Zones
  import opened Text
  import opened Names
  import opened Tables
  import opened Stores
  import opened Sorting
  import opened Reconciling

  datatype Route = Route(env: Environment, exposure: Exposure)

  /** The label has a delimiter with something on both sides. */
  predicate HasDelimiter(name: string) {
    LastDelimiter(name) > 0 && LastDelimiter(name) + 2 < |name|
  }

  /** It is one text, two hyphens and another, neither empty, and no two hyphens follow each other any later. */
  lemma HasDelimiterExact(name: string)
    ensures HasDelimiter(name) <==>
            exists a, b :: a != "" && b != "" && name == HostLabel(a, b) && !HasPair(b) && b[0] != '-'
  {
    hide HasPair;
    var d := LastDelimiter(name);
    if HasDelimiter(name) {
      var a, b := name[..d], name[d + 2..];
      assert name == HostLabel(a, b);
      DelimiterAtJoin(a, b);
    }
    if a, b :| a != "" && b != "" && name == HostLabel(a, b) && !HasPair(b) && b[0] != '-' {
      DelimiterAtJoin(a, b);
    }
  }

  ghost function LookupExposure(db: DB, zones: seq<string>, host: string, now: int): Option<Route> {
    var parsed := ParseServed(host, zones);
    if parsed.None? || NameTaken(db, parsed.value.name) || !HasDelimiter(parsed.value.name) then None
    else
      var x := ExposureByLabel(db, parsed.value.name, now);
      if x.None? || x.value.environmentID !in db.envs || db.envs[x.value.environmentID].status == Stopped then None
      else Some(Route(db.envs[x.value.environmentID], x.value))
  }

  /** A lookup succeeds exactly for the unexpired exposure whose label the host names, when the label is
      no environment's name and the exposure's environment exists and is not stopped. */
  lemma LookupExposureExact(db: DB, zones: seq<string>, host: string, now: int, route: Route)
    requires Keyed(db) && LabelsUnique(db)
    ensures LookupExposure(db, zones, host, now) == Some(route) <==>
            && ParseServed(host, zones).Some?
            && HasDelimiter(ParseServed(host, zones).value.name)
            && !NameTaken(db, ParseServed(host, zones).value.name)
            && KeyOf(route.exposure) in db.exps && db.exps[KeyOf(route.exposure)] == route.exposure
            && Live(route.exposure, ParseServed(host, zones).value.name, now)
            && route.exposure.environmentID in db.envs
            && db.envs[route.exposure.environmentID] == route.env && route.env.status != Stopped
  {
    hide ParseServed, LastDelimiter;
    var parsed := ParseServed(host, zones);
    if parsed.Some? {
      var k := KeyOf(route.exposure);
      if k in db.exps && db.exps[k] == route.exposure && Live(route.exposure, parsed.value.name, now) {
        LabelIsOneRow(db, k, now);
      }
    }
  }

  datatype Request = Request(name: string, scheme: string, port: int, ttlSeconds: int)

  datatype Prepared = Rejected(reason: string) | Ready(x: Exposure)

  function Lifetime(ttlSeconds: int): int {
    if ttlSeconds <= 0 then 3600 else if ttlSeconds > 86400 then 86400 else ttlSeconds
  }

  function ExposureName(req: Request): string
    requires 0 < req.port
  {
    if NormalizedName(req.name) == "" then Itoa(req.port) else NormalizedName(req.name)
  }

  /** handleUpsertExposure between the lookup and the write. */
  function Prepare(env: Environment, req: Request, now: int): Prepared {
    if !(0 < req.port <= 65535) then Rejected("invalid_port")
    else if Trim(req.scheme, IsSpace) != "" && ToLower(Trim(req.scheme, IsSpace)) != "http"
    then Rejected("unsupported_scheme")
    else
      var name := ExposureName(req);
      if name == env.name then Rejected("exposure_name_conflicts_with_environment")
      else Ready(Exposure(env.id, name, HostLabel(env.name, name), "http", req.port,
                          now, now, now + Lifetime(req.ttlSeconds)))
  }

  /** relayEnvironmentID: the decoded descriptor id when there is one, else the row key. */
  function RelayID(env: Environment, descriptorID: string -> string): string {
    if descriptorID(env.probeJSON) != "" then descriptorID(env.probeJSON) else env.id
  }

  /** lookupEnvironmentByRelayID: a row key wins over a descriptor id. */
  ghost predicate IsRelayLookup(db: DB, id: string, descriptorID: string -> string, r: Option<Environment>) {
    if id in db.envs then r == Some(db.envs[id])
    else match r
      case Some(env) => env in db.envs.Values && RelayID(env, descriptorID) == id
      case None => forall e :: e in db.envs.Values ==> RelayID(e, descriptorID) != id
  }

  /** The row is known by the id in its descriptor, or without one by its key. */
  predicate GoesBy(env: Environment, id: string, descriptorID: string -> string) {
    var described := descriptorID(env.probeJSON);
    (described != "" && described == id) || (described == "" && env.id == id)
  }

  /** An id finds the row of that key, or without one a row that goes by it, if there is any. */
  lemma RelayLookupExact(db: DB, id: string, descriptorID: string -> string, r: Option<Environment>)
    ensures IsRelayLookup(db, id, descriptorID, r) <==>
            if id in db.envs then r == Some(db.envs[id])
            else if r.Some? then r.value in db.envs.Values && GoesBy(r.value, id, descriptorID)
            else forall e :: e in db.envs.Values ==> !GoesBy(e, id, descriptorID)
  {
    forall e: Environment ensures RelayID(e, descriptorID) == id <==> GoesBy(e, id, descriptorID) {
    }
  }

  /** A scheme is http, in any case, or left blank. */
  predicate PlainScheme(scheme: string) {
    var s := Trim(scheme, IsSpace);
    s == "" || ToLower(s) == "http"
  }

  /** What is asked for is turned away for its port, then for its scheme, then for its name; else it is registered
      under its normalised name, or its port, for an hour, or as long as it asks but at most a day. */
  lemma PrepareExact(env: Environment, req: Request, now: int)
    ensures var r, given := Prepare(env, req, now), NormalizedName(req.name);
            if req.port < 1 || req.port > 65535 then r == Rejected("invalid_port")
            else if !PlainScheme(req.scheme) then r == Rejected("unsupported_scheme")
            else
              var name := if given != "" then given else Itoa(req.port);
              if name == env.name then r == Rejected("exposure_name_conflicts_with_environment")
              else
                && r.Ready? && r.x.environmentID == env.id && r.x.name == name
                && r.x.hostLabel == env.name + "--" + name
                && r.x.scheme == "http" && r.x.port == req.port && r.x.createdAt == now && r.x.lastSeen == now
                && (req.ttlSeconds <= 0 ==> r.x.expiresAt == now + 3600)
                && (0 < req.ttlSeconds <= 86400 ==> r.x.expiresAt == now + req.ttlSeconds)
                && (req.ttlSeconds > 86400 ==> r.x.expiresAt == now + 86400)
  {
    hide NormalizedName, Itoa, Trim, ToLower;
  }

  datatype Response = NotFound | BadRequest(reason: string) | StoreError | NoContent
                    | Registered(x: Exposure) | Listed(rows: seq<Exposure>) | Probed(env: Environment)

  function Refreshed(env: Environment, probe: Probe, now: int): Environment {
    env.(status := if probe.failed then Unreachable else Running,
         probeJSON := if probe.body != "" then probe.body else env.probeJSON,
         lastSeen := now)
  }

  class RelayApp {
    const store: Store
    const domainSuffix: string
    const relayHost: string
    /** Decodes the environment id in a probe body. */
    const descriptorID: string -> string
    var supportedZones: seq<string>
    var primaryZone: string

    constructor (store: Store, domainSuffix: string, relayHost: string, descriptorID: string -> string)
      ensures this.store == store && this.domainSuffix == domainSuffix && this.relayHost == relayHost
      ensures this.descriptorID == descriptorID && supportedZones == [] && primaryZone == ""
    {
      this.store := store;
      this.domainSuffix := domainSuffix;
      this.relayHost := relayHost;
      this.descriptorID := descriptorID;
      supportedZones := [];
      primaryZone := "";
    }

    /** Whatever the labels, a primary zone is one of the served zones and these stand longest first. */
    method RefreshServedZones(labels: map<string, string>)
      modifies this
      ensures Ordered(supportedZones, LongestFirst)
      ensures primaryZone != "" ==> primaryZone in supportedZones
      ensures (exists z :: IsZone(labels, z)) ==>
                && (forall z :: z in supportedZones <==> IsZone(labels, z))
                && supportedZones != [] && primaryZone == supportedZones[0]
      ensures !(exists z :: IsZone(labels, z)) ==>
                var suffix, host := NormalizeHost(domainSuffix), NormalizeHost(relayHost);
                && primaryZone == (if suffix != "" then suffix
                                   else if HasPrefix(host, "relay.") then host[6..] else "")
                && supportedZones == if primaryZone == "" then [] else [primaryZone]
    {
      var zones := WildcardZonesFromLabels(labels);
      assert forall i, j :: 0 <= i < j < |zones| ==> ZoneBefore(zones[i], zones[j]);
      supportedZones := zones;
      primaryZone := PrimaryZone(zones, domainSuffix, relayHost);
      if |zones| > 0 { assert zones[0] in zones; }
      if supportedZones == [] && primaryZone != "" {
        supportedZones := [primaryZone];
      }
    }

    method LookupByHost(host: string) returns (r: Option<Environment>)
      requires store.Valid()
      ensures r.Some? <==> ParseServed(host, supportedZones).Some? &&
                           NameTaken(store.Contents(), ParseServed(host, supportedZones).value.name)
      ensures r.Some? ==>
                r.value in store.Contents().envs.Values && r.value.name == ParseServed(host, supportedZones).value.name
    {
      var parsed := ParseServedHost(host, supportedZones);
      if parsed.None? { return None; }
      r := store.GetByName(parsed.value.name);
    }

    method LookupExposureByHost(host: string, now: int) returns (r: Option<Route>)
      requires store.Valid()
      ensures r == LookupExposure(store.Contents(), supportedZones, host, now)
    {
      var parsed := ParseServedHost(host, supportedZones);
      if parsed.None? { return None; }
      var taken := store.GetByName(parsed.value.name);
      if taken.Some? { return None; }
      var delimiter := LastDelimiter(parsed.value.name);
      if delimiter <= 0 || delimiter + 2 >= |parsed.value.name| { return None; }
      var x := store.GetExposureByHostLabel(parsed.value.name, now);
      if x.None? { return None; }
      var env := store.GetByID(x.value.environmentID);
      if env.None? || env.value.status == Stopped { return None; }
      r := Some(Route(env.value, x.value));
    }

    method LookupByRelayID(id: string) returns (r: Option<Environment>)
      requires store.Valid()
      ensures IsRelayLookup(store.Contents(), id, descriptorID, r)
    {
      r := store.GetByID(id);
      if r.Some? { return; }
      var rows := store.List();
      for i := 0 to |rows|
        invariant r == None
        invariant forall j :: 0 <= j < i ==> RelayID(rows[j], descriptorID) != id
      {
        if RelayID(rows[i], descriptorID) == id {
          return Some(rows[i]);
        }
      }
    }

    method HandleUpsertExposure(envID: string, req: Request, now: int) returns (resp: Response)
      requires store.Valid()
      modifies store
      ensures store.Valid()
      ensures exists env :: IsRelayLookup(old(store.Contents()), envID, descriptorID, env) &&
                var db := old(store.Contents());
                if env.None? then resp == NotFound && store.Contents() == db
                else match Prepare(env.value, req, now)
                  case Rejected(reason) => resp == BadRequest(reason) && store.Contents() == db
                  case Ready(x) =>
                    && store.Contents() == Execute(db, SUpsertExposure(x), now)
                    && resp == if Tables.UpsertExposure(db, x, now).Some? then Registered(x) else StoreError
    {
      var env := LookupByRelayID(envID);
      if env.None? { return NotFound; }
      match Prepare(env.value, req, now)
      case Rejected(reason) => return BadRequest(reason);
      case Ready(x) =>
        var ok := store.UpsertExposure(x, now);
        resp := if ok then Registered(x) else StoreError;
    }

    method HandleDeleteExposure(envID: string, exposureName: string) returns (resp: Response)
      requires store.Valid()
      modifies store
      ensures store.Valid()
      ensures exists env :: IsRelayLookup(old(store.Contents()), envID, descriptorID, env) &&
                var db := old(store.Contents());
                if envID == "" || exposureName == "" || env.None? then resp == NotFound && store.Contents() == db
                else
                  var k := Key(env.value.id, NormalizedName(exposureName));
                  && store.Contents() == DeleteExposure(db, k) == db.(exps := db.exps - {k})
                  && resp == if k in db.exps then NoContent else NotFound
    {
      var env := LookupByRelayID(envID);
      if envID == "" || exposureName == "" || env.None? { return NotFound; }
      var name := NormalizeExposureName(exposureName);
      var deleted := store.DeleteExposure(env.value.id, name);
      resp := if deleted then NoContent else NotFound;
    }

    method HandleDeleteEnvironment(envID: string) returns (resp: Response)
      requires store.Valid()
      modifies store
      ensures store.Valid()
      ensures exists env :: IsRelayLookup(old(store.Contents()), envID, descriptorID, env) &&
                var db := old(store.Contents());
                if envID == "" || env.None? then resp == NotFound && store.Contents() == db
                else
                  && resp == NoContent
                  && store.Contents() == DeleteEnv(DeleteExposuresOf(db, env.value.id), env.value.id)
                  && store.Contents().envs == db.envs - {env.value.id}
                  && store.Contents().exps ==
                     map k | k in db.exps && db.exps[k].environmentID != env.value.id :: db.exps[k]
    {
      var env := LookupByRelayID(envID);
      if envID == "" || env.None? { return NotFound; }
      var deleted := store.DeleteByID(env.value.id);
      resp := if deleted then NoContent else NotFound;
    }

    method HandleEnvironmentStatus(envID: string, probe: Probe, now: int) returns (resp: Response)
      requires store.Valid()
      modifies store
      ensures store.Valid()
      ensures exists env :: IsRelayLookup(old(store.Contents()), envID, descriptorID, env) &&
                var db := old(store.Contents());
                if env.None? then resp == NotFound && store.Contents() == db
                else
                  var seen := env.value.(status := if probe.failed then Unreachable else Running, lastSeen := now,
                                         probeJSON := if probe.body == "" then env.value.probeJSON else probe.body);
                  && resp == Probed(seen)
                  && store.Contents() == UpsertEnv(db, seen, now)
    {
      var env := LookupByRelayID(envID);
      if env.None? { return NotFound; }
      store.Upsert(Refreshed(env.value, probe, now), now);
      resp := Probed(Refreshed(env.value, probe, now));
    }

    method HandleListExposures(envID: string, now: int) returns (resp: Response)
      requires store.Valid()
      modifies store
      ensures store.Valid()
      ensures exists env :: IsRelayLookup(old(store.Contents()), envID, descriptorID, env) &&
                var db := old(store.Contents());
                if env.None? then resp == NotFound && store.Contents() == db
                else
                  && store.Contents() == DeleteExpired(db, now)
                  && resp.Listed? && IsListing(db, env.value.id, now, resp.rows)
    {
      var env := LookupByRelayID(envID);
      if env.None? { return NotFound; }
      ghost var db := store.Contents();
      store.DeleteExpiredExposures(now);
      var rows := store.ListExposures(env.value.id, now);
      assert Visible(db, now) == Visible(store.Contents(), now);
      ListingFromVisible(store.Contents(), db, env.value.id, now, rows);
      resp := Listed(rows);
    }
  }
}
