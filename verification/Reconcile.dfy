/** One discovery pass: name assignment, the upsert loop and the stop sweep. */
module Reconciling {
  import opened Options
  import opened Zones
  import opened Text
  import opened Names
  import opened Tables
  import opened Stores
  import opened Sorting

  /** What the probe of one container answered. */
  datatype Probe = Probe(body: string, failed: bool)

  /** A listed container with its address ("" when it has none), its probe and the clock at that moment. */
  datatype Container = Container(id: string, devcontainerID: string, hostLabel: Option<string>, names: seq<string>,
                                 ip: string, probe: Probe, now: int)

  datatype Config = Config(zones: seq<string>, primaryZone: string, probePort: int)

  /** The code slices twelve characters off every container id. */
  predicate LongIDs(cs: seq<Container>) {
    forall i :: 0 <= i < |cs| ==> |cs[i].id| >= 12
  }

  predicate Tracked(c: Container) {
    c.devcontainerID != ""
  }

  /** Tracked and with an address: the pass writes a row for it. */
  predicate Effective(c: Container) {
    Tracked(c) && c.ip != ""
  }

  function FirstName(names: seq<string>): string {
    if names == [] then ""
    else if SanitizeName(names[0]) != "" then SanitizeName(names[0])
    else FirstName(names[1..])
  }

  function BaseName(c: Container): string
    requires |c.id| >= 12
  {
    var b := if c.hostLabel.Some? && c.hostLabel.value != "" then SanitizeName(c.hostLabel.value)
             else FirstName(c.names);
    if b == "" then SanitizeName(c.id[..12]) else b
  }

  function Suffixed(base: string, id: string): string
    requires |id| >= 12
  {
    base + "-" + id[..6]
  }

  /** The base name already belongs to another container. */
  predicate Collides(owner: map<string, string>, c: Container)
    requires |c.id| >= 12
  {
    BaseName(c) in owner && owner[BaseName(c)] != c.id
  }

  function HostName(owner: map<string, string>, c: Container): string
    requires |c.id| >= 12
  {
    if Collides(owner, c) then Suffixed(BaseName(c), c.id) else BaseName(c)
  }

  function Claim(owner: map<string, string>, c: Container): map<string, string>
    requires |c.id| >= 12
  {
    if Collides(owner, c) then owner else owner[BaseName(c) := c.id]
  }

  /** hostnameOwner once the containers cs have been through the loop. */
  function OwnersAfter(cs: seq<Container>): map<string, string>
    requires LongIDs(cs)
  {
    if cs == [] then map[]
    else
      var owner := OwnersAfter(cs[..|cs| - 1]);
      var c := cs[|cs| - 1];
      if Tracked(c) then Claim(owner, c) else owner
  }

  function NameAt(cs: seq<Container>, i: nat): string
    requires LongIDs(cs) && i < |cs|
  {
    HostName(OwnersAfter(cs[..i]), cs[i])
  }

  function Row(cfg: Config, c: Container, name: string): Environment {
    Environment(c.devcontainerID, c.id, name, PublishedHostname(cfg.primaryZone, name), c.ip, cfg.probePort,
                if c.probe.failed then Unreachable else Running, c.probe.body, c.now, c.now)
  }

  function UpsertAll(cfg: Config, db: DB, cs: seq<Container>): DB
    requires LongIDs(cs)
  {
    if cs == [] then db
    else
      var n := |cs| - 1;
      var before := UpsertAll(cfg, db, cs[..n]);
      if Effective(cs[n]) then UpsertEnv(before, Row(cfg, cs[n], NameAt(cs, n)), cs[n].now) else before
  }

  function Seen(cs: seq<Container>): set<string> {
    set i | 0 <= i < |cs| && Tracked(cs[i]) :: cs[i].id
  }

  function StopContainers(db: DB, ids: set<string>): DB {
    db.(envs := map id | id in db.envs ::
          if db.envs[id].containerID in ids then Stop(db.envs[id]) else db.envs[id])
  }

  function StopUnseen(db: DB, seen: set<string>): DB {
    db.(envs := map id | id in db.envs ::
          if db.envs[id].containerID !in seen then Stop(db.envs[id]) else db.envs[id])
  }

  function Pass(cfg: Config, db: DB, cs: seq<Container>): DB
    requires LongIDs(cs)
  {
    StopUnseen(UpsertAll(cfg, db, cs), Seen(cs))
  }

  /** reconcile, uninterrupted and without I/O errors. */
  method Reconcile(store: Store, cfg: Config, cs: seq<Container>)
    requires store.Valid() && LongIDs(cs)
    modifies store
    ensures store.Valid()
    ensures store.Contents() == Pass(cfg, old(store.Contents()), cs)
  {
    var seenContainerIDs: set<string> := {};
    var hostnameOwner: map<string, string> := map[];
    ghost var db := store.Contents();
    for i := 0 to |cs|
      invariant store.Valid()
      invariant store.Contents() == UpsertAll(cfg, db, cs[..i])
      invariant hostnameOwner == OwnersAfter(cs[..i])
      invariant seenContainerIDs == Seen(cs[..i])
    {
      var c := cs[i];
      OneMore(cs, i);
      if Tracked(c) {
        seenContainerIDs := seenContainerIDs + {c.id};
        var name := HostName(hostnameOwner, c);
        hostnameOwner := Claim(hostnameOwner, c);
        if c.ip != "" {
          store.Upsert(Row(cfg, c, name), c.now);
        }
      }
    }
    assert cs[..|cs|] == cs;
    SweepStopped(store, seenContainerIDs);
  }

  lemma OneMore(cs: seq<Container>, i: nat)
    requires i < |cs|
    ensures cs[..i + 1][..i] == cs[..i] && cs[..i + 1][i] == cs[i]
    ensures Seen(cs[..i + 1]) == Seen(cs[..i]) + if Tracked(cs[i]) then {cs[i].id} else {}
  {
    var a, b := cs[..i], cs[..i + 1];
    assert b == a + [cs[i]];
    forall id ensures id in Seen(b) <==> id in Seen(a) || (Tracked(cs[i]) && id == cs[i].id) {
      if id in Seen(a) {
        var j :| 0 <= j < |a| && Tracked(a[j]) && a[j].id == id;
        assert b[j] == a[j];
      }
      if Tracked(cs[i]) && id == cs[i].id { assert b[i] == cs[i]; }
    }
  }

  /** The second half of reconcile: mark containers that disappeared as stopped. */
  method SweepStopped(store: Store, seen: set<string>)
    requires store.Valid()
    modifies store
    ensures store.Valid()
    ensures store.Contents() == StopUnseen(old(store.Contents()), seen)
  {
    ghost var db := store.Contents();
    var existing := store.List();
    ghost var stopped: set<string> := {};
    for i := 0 to |existing|
      invariant store.Valid()
      invariant store.Contents() == StopContainers(db, stopped)
      invariant forall c :: c in stopped ==> c !in seen
      invariant forall j :: 0 <= j < i ==>
        existing[j].status == Stopped || existing[j].containerID in seen || existing[j].containerID in stopped
    {
      var e := existing[i];
      if e.status != Stopped && e.containerID !in seen {
        store.MarkStopped(e.containerID);
        stopped := stopped + {e.containerID};
      }
    }
    forall id | id in db.envs && db.envs[id].containerID !in seen && db.envs[id].containerID !in stopped
      ensures db.envs[id].status == Stopped
    {
      assert db.envs[id] in existing;
    }
  }

  /** The last container in the list for which the pass writes the row id, or -1. */
  function LastFor(cs: seq<Container>, id: string): (l: int)
    ensures -1 <= l < |cs|
    ensures l >= 0 ==> Effective(cs[l]) && cs[l].devcontainerID == id
    ensures forall i :: l < i < |cs| ==> !(Effective(cs[i]) && cs[i].devcontainerID == id)
  {
    if cs == [] then -1
    else if Effective(cs[|cs| - 1]) && cs[|cs| - 1].devcontainerID == id then |cs| - 1
    else LastFor(cs[..|cs| - 1], id)
  }

  /** All columns but first_seen and last_seen. */
  predicate SameColumns(a: Environment, b: Environment) {
    a.(firstSeen := 0, lastSeen := 0) == b.(firstSeen := 0, lastSeen := 0)
  }

  predicate SameButLastSeen(a: Environment, b: Environment) {
    a.(lastSeen := 0) == b.(lastSeen := 0)
  }

  lemma {:induction false} UpsertAllRows(cfg: Config, db: DB, cs: seq<Container>, id: string)
    requires LongIDs(cs)
    ensures var r, l := UpsertAll(cfg, db, cs), LastFor(cs, id);
            && r.exps == db.exps
            && (id in r.envs <==> id in db.envs || l >= 0)
            && (id in db.envs ==> r.envs[id].firstSeen == db.envs[id].firstSeen)
            && (l < 0 && id in db.envs ==> r.envs[id] == db.envs[id])
            && (l >= 0 ==> SameColumns(r.envs[id], Row(cfg, cs[l], NameAt(cs, l))))
  {
    hide NameAt, LongIDs, Effective, PublishedHostname;
    if cs != [] {
      var n := |cs| - 1;
      Shorter(cs, n);
      UpsertAllRows(cfg, db, cs[..n], id);
      var l := LastFor(cs[..n], id);
      if l >= 0 {
        SameName(cs, n, l);
      }
    }
  }

  lemma Shorter(cs: seq<Container>, n: nat)
    requires LongIDs(cs) && n <= |cs|
    ensures LongIDs(cs[..n])
  {
  }

  lemma SameName(cs: seq<Container>, n: nat, i: nat)
    requires i < n <= |cs| && LongIDs(cs) && LongIDs(cs[..n])
    ensures NameAt(cs[..n], i) == NameAt(cs, i) && cs[..n][i] == cs[i]
  {
    assert cs[..n][..i] == cs[..i];
  }

  /** One pass stabilises the table, whatever it held: a row whose container is not listed is stopped; a
      devcontainer with a listed container that has an address has the row computed for the last such
      container; no row goes; first_seen stays; nothing else changes. */
  lemma PassStabilises(cfg: Config, db: DB, cs: seq<Container>, id: string)
    requires LongIDs(cs)
    ensures var r, l := Pass(cfg, db, cs), LastFor(cs, id);
            && r.exps == db.exps
            && (id in r.envs <==> id in db.envs || l >= 0)
            && (id in r.envs && r.envs[id].containerID !in Seen(cs) ==> r.envs[id].status == Stopped)
            && (l >= 0 ==> SameColumns(r.envs[id], Row(cfg, cs[l], NameAt(cs, l))))
            && (id in db.envs ==> r.envs[id].firstSeen == db.envs[id].firstSeen)
            && (l < 0 && id in db.envs ==>
                  r.envs[id] == if db.envs[id].containerID in Seen(cs) then db.envs[id] else Stop(db.envs[id]))
  {
    UpsertAllRows(cfg, db, cs, id);
    var l := LastFor(cs, id);
    if l >= 0 { assert cs[l].id in Seen(cs); }
  }

  /** The label's host if it is given, else the first of its names that leaves something, else the short id. */
  lemma BaseNameExact(c: Container)
    requires |c.id| >= 12
    ensures c.hostLabel.Some? && c.hostLabel.value != "" ==>
              BaseName(c) == OrElse(SanitizeName(c.hostLabel.value), SanitizeName(c.id[..12]))
    ensures c.hostLabel.None? || c.hostLabel.value == "" ==>
              (forall i :: 0 <= i < |c.names| && SanitizeName(c.names[i]) != "" &&
                           (forall j :: 0 <= j < i ==> SanitizeName(c.names[j]) == "") ==>
                 BaseName(c) == SanitizeName(c.names[i])) &&
              ((forall i :: 0 <= i < |c.names| ==> SanitizeName(c.names[i]) == "") ==>
                 BaseName(c) == SanitizeName(c.id[..12]))
  {
    hide SanitizeName;
    FirstNameExact(c.names);
  }

  function OrElse(a: string, b: string): string {
    if a != "" then a else b
  }

  lemma {:induction false} FirstNameExact(names: seq<string>)
    ensures forall i :: 0 <= i < |names| && SanitizeName(names[i]) != "" &&
                        (forall j :: 0 <= j < i ==> SanitizeName(names[j]) == "") ==>
              FirstName(names) == SanitizeName(names[i])
    ensures (forall i :: 0 <= i < |names| ==> SanitizeName(names[i]) == "") ==> FirstName(names) == ""
  {
    hide SanitizeName;
    if names != [] {
      var rest := names[1..];
      FirstNameExact(rest);
      forall i | 0 <= i < |names| && SanitizeName(names[i]) != "" &&
                 (forall j :: 0 <= j < i ==> SanitizeName(names[j]) == "")
        ensures FirstName(names) == SanitizeName(names[i])
      {
        if i > 0 {
          assert rest[i - 1] == names[i];
          assert forall j :: 0 <= j < i - 1 ==> rest[j] == names[j + 1];
        }
      }
      if forall i :: 0 <= i < |names| ==> SanitizeName(names[i]) == "" {
        assert forall j :: 0 <= j < |rest| ==> rest[j] == names[j + 1];
      }
    }
  }

  /** The pass writes the row id for this container. */
  predicate WritesFor(c: Container, id: string) {
    id != "" && c.devcontainerID == id && c.ip != ""
  }

  /** Container l is the last for which it does, f the first. */
  ghost predicate LastWrite(cs: seq<Container>, l: int, id: string) {
    0 <= l < |cs| && WritesFor(cs[l], id) && forall i :: l < i < |cs| ==> !WritesFor(cs[i], id)
  }

  ghost predicate FirstWrite(cs: seq<Container>, f: int, id: string) {
    0 <= f < |cs| && WritesFor(cs[f], id) && forall i :: 0 <= i < f ==> !WritesFor(cs[i], id)
  }

  ghost predicate NoWrite(cs: seq<Container>, id: string) {
    forall i :: 0 <= i < |cs| ==> !WritesFor(cs[i], id)
  }

  lemma WritesSnoc(cs: seq<Container>, c: Container, id: string)
    ensures forall l :: LastWrite(cs + [c], l, id) <==>
                        if l == |cs| then WritesFor(c, id) else LastWrite(cs, l, id) && !WritesFor(c, id)
    ensures forall f :: FirstWrite(cs + [c], f, id) <==>
                        if f == |cs| then WritesFor(c, id) && NoWrite(cs, id) else FirstWrite(cs, f, id)
    ensures NoWrite(cs + [c], id) <==> NoWrite(cs, id) && !WritesFor(c, id)
  {
    hide WritesFor;
    var all := cs + [c];
    assert all[|cs|] == c && forall i :: 0 <= i < |cs| ==> all[i] == cs[i];
    assert NoWrite(all, id) ==> !WritesFor(all[|cs|], id);
  }

  lemma UpsertAllSnoc(cfg: Config, db: DB, cs: seq<Container>, n: nat, id: string)
    requires LongIDs(cs) && |cs| == n + 1 && LongIDs(cs[..n])
    ensures var before, after := UpsertAll(cfg, db, cs[..n]), UpsertAll(cfg, db, cs);
            if WritesFor(cs[n], id) then
              && id in after.envs && after.envs[id].lastSeen == cs[n].now
              && after.envs[id].firstSeen == if id in before.envs then before.envs[id].firstSeen else cs[n].now
            else (id in after.envs <==> id in before.envs) && (id in before.envs ==> after.envs[id] == before.envs[id])
  {
    hide NameAt, LongIDs, PublishedHostname;
  }

  lemma {:induction false} SeenAtExact(cfg: Config, db: DB, cs: seq<Container>, id: string)
    requires LongIDs(cs)
    ensures forall l :: LastWrite(cs, l, id) ==>
              id in UpsertAll(cfg, db, cs).envs && UpsertAll(cfg, db, cs).envs[id].lastSeen == cs[l].now
    ensures forall f :: FirstWrite(cs, f, id) && id !in db.envs ==>
              id in UpsertAll(cfg, db, cs).envs && UpsertAll(cfg, db, cs).envs[id].firstSeen == cs[f].now
    ensures NoWrite(cs, id) ==> (id in UpsertAll(cfg, db, cs).envs <==> id in db.envs)
  {
    hide *;
    if cs == [] {
      NothingWritten(cfg, db, id);
    } else {
      var n := |cs| - 1;
      Shorter(cs, n);
      SeenAtExact(cfg, db, cs[..n], id);
      assert cs == cs[..n] + [cs[n]];
      WritesSnoc(cs[..n], cs[n], id);
      UpsertAllSnoc(cfg, db, cs, n, id);
      WritesListed(cs[..n], id);
    }
  }

  lemma NothingWritten(cfg: Config, db: DB, id: string)
    ensures UpsertAll(cfg, db, []) == db && NoWrite([], id)
    ensures forall l :: !LastWrite([], l, id) && !FirstWrite([], l, id)
  {
  }

  lemma WritesListed(cs: seq<Container>, id: string)
    ensures forall l :: LastWrite(cs, l, id) ==> 0 <= l < |cs|
    ensures forall f :: FirstWrite(cs, f, id) ==> 0 <= f < |cs|
  {
  }

  /** What one pass leaves of a row that it writes: the columns of its last container. */
  lemma PassWrites(cfg: Config, db: DB, cs: seq<Container>, id: string, l: int)
    requires LongIDs(cs) && LastWrite(cs, l, id)
    ensures id in Pass(cfg, db, cs).envs
    ensures var row, c := Pass(cfg, db, cs).envs[id], cs[l];
            && row.id == id && row.containerID == c.id && row.name == NameAt(cs, l)
            && row.hostname == PublishedHostname(cfg.primaryZone, row.name)
            && row.ip == c.ip && row.port == cfg.probePort && row.probeJSON == c.probe.body && row.lastSeen == c.now
            && row.status == (if c.probe.failed then Unreachable else Running)
            && (id in db.envs ==> row.firstSeen == db.envs[id].firstSeen)
            && (id !in db.envs ==> forall f :: FirstWrite(cs, f, id) ==> row.firstSeen == cs[f].now)
  {
    hide NameAt, PublishedHostname, UpsertAll, LastFor;
    UpsertAllRows(cfg, db, cs, id);
    SeenAtExact(cfg, db, cs, id);
    assert LastFor(cs, id) == l;
    assert Tracked(cs[l]) && cs[l].id in Seen(cs);
  }

  /** And of a row that it does not write: the row, stopped unless its container is listed. */
  lemma PassLeaves(cfg: Config, db: DB, cs: seq<Container>, id: string)
    requires LongIDs(cs) && NoWrite(cs, id)
    ensures Pass(cfg, db, cs).exps == db.exps
    ensures id in Pass(cfg, db, cs).envs <==> id in db.envs
    ensures id in db.envs ==>
              var listed := exists i :: 0 <= i < |cs| && cs[i].devcontainerID != "" &&
                                        cs[i].id == db.envs[id].containerID;
              Pass(cfg, db, cs).envs[id] == if listed then db.envs[id] else db.envs[id].(status := Stopped)
  {
    hide NameAt, PublishedHostname, UpsertAll, LastFor;
    UpsertAllRows(cfg, db, cs, id);
    SeenAtExact(cfg, db, cs, id);
    assert LastFor(cs, id) < 0;
  }

  /** The same containers, names, addresses and probes, seen at other times. */
  ghost predicate SameListing(cs: seq<Container>, cs': seq<Container>) {
    |cs| == |cs'| && forall i :: 0 <= i < |cs| ==> cs'[i] == cs[i].(now := cs'[i].now)
  }

  lemma {:induction false} SameOwners(cs: seq<Container>, cs': seq<Container>)
    requires LongIDs(cs) && LongIDs(cs') && SameListing(cs, cs')
    ensures OwnersAfter(cs) == OwnersAfter(cs')
  {
    if cs != [] {
      hide BaseName;
      var n := |cs| - 1;
      SameOwners(cs[..n], cs'[..n]);
      assert cs'[n] == cs[n].(now := cs'[n].now);
      SameBase(cs[n], cs'[n]);
    }
  }

  lemma SameBase(c: Container, c': Container)
    requires |c.id| >= 12 && c' == c.(now := c'.now)
    ensures BaseName(c') == BaseName(c)
  {
  }

  lemma {:induction false} SameLast(cs: seq<Container>, cs': seq<Container>, id: string)
    requires SameListing(cs, cs')
    ensures LastFor(cs, id) == LastFor(cs', id)
  {
    if cs != [] {
      var n := |cs| - 1;
      SameLast(cs[..n], cs'[..n], id);
      assert cs'[n] == cs[n].(now := cs'[n].now);
    }
  }

  lemma SameSeen(cs: seq<Container>, cs': seq<Container>)
    requires SameListing(cs, cs')
    ensures Seen(cs) == Seen(cs')
  {
    forall i | 0 <= i < |cs| ensures Tracked(cs[i]) == Tracked(cs'[i]) && cs[i].id == cs'[i].id {
      assert cs'[i] == cs[i].(now := cs'[i].now);
    }
  }

  /** A second pass over the same listing changes only last_seen. */
  lemma SecondPass(cfg: Config, db: DB, cs: seq<Container>, cs': seq<Container>)
    requires LongIDs(cs) && LongIDs(cs') && SameListing(cs, cs')
    ensures var r, r' := Pass(cfg, db, cs), Pass(cfg, Pass(cfg, db, cs), cs');
            && r'.exps == r.exps && r'.envs.Keys == r.envs.Keys
            && forall id :: id in r.envs ==> SameButLastSeen(r.envs[id], r'.envs[id])
  {
    var r, r' := Pass(cfg, db, cs), Pass(cfg, Pass(cfg, db, cs), cs');
    forall id ensures id in r.envs <==> id in r'.envs
      ensures id in r.envs ==> SameButLastSeen(r.envs[id], r'.envs[id])
    {
      SecondPassRow(cfg, db, cs, cs', id);
    }
    PassStabilises(cfg, r, cs', "");
  }

  lemma SecondPassRow(cfg: Config, db: DB, cs: seq<Container>, cs': seq<Container>, id: string)
    requires LongIDs(cs) && LongIDs(cs') && SameListing(cs, cs')
    ensures var r, r' := Pass(cfg, db, cs), Pass(cfg, Pass(cfg, db, cs), cs');
            && (id in r.envs <==> id in r'.envs)
            && (id in r.envs ==> SameButLastSeen(r.envs[id], r'.envs[id]))
  {
    hide Pass, LastFor, NameAt, Seen, LongIDs, SameListing;
    var r := Pass(cfg, db, cs);
    PassStabilises(cfg, db, cs, id);
    PassStabilises(cfg, r, cs', id);
    SameLast(cs, cs', id);
    SameSeen(cs, cs');
    SameLength(cs, cs');
    var l := LastFor(cs, id);
    if l >= 0 {
      SameRow(cfg, cs, cs', l);
      ListedIsSeen(cs, l);
    }
  }

  lemma SameLength(cs: seq<Container>, cs': seq<Container>)
    requires SameListing(cs, cs')
    ensures |cs| == |cs'|
  {
  }

  lemma ListedIsSeen(cs: seq<Container>, l: nat)
    requires l < |cs| && Tracked(cs[l])
    ensures cs[l].id in Seen(cs)
  {
  }

  lemma SameRow(cfg: Config, cs: seq<Container>, cs': seq<Container>, l: nat)
    requires LongIDs(cs) && LongIDs(cs') && SameListing(cs, cs') && l < |cs|
    ensures SameColumns(Row(cfg, cs[l], NameAt(cs, l)), Row(cfg, cs'[l], NameAt(cs', l)))
  {
    assert SameListing(cs[..l], cs'[..l]);
    SameOwners(cs[..l], cs'[..l]);
    assert cs'[l] == cs[l].(now := cs'[l].now);
  }

  /** The tracked containers carry pairwise different ids, as a daemon lists them. */
  ghost predicate DistinctIDs(cs: seq<Container>) {
    forall i, j :: 0 <= i < j < |cs| && Tracked(cs[i]) && Tracked(cs[j]) ==> cs[i].id != cs[j].id
  }

  /** Container i is the first listed one of its base name. */
  ghost predicate FirstOfBase(cs: seq<Container>, i: nat)
    requires LongIDs(cs) && i < |cs|
  {
    forall j :: 0 <= j < i && Tracked(cs[j]) ==> BaseName(cs[j]) != BaseName(cs[i])
  }

  /** Container f is the first tracked one of this base name. */
  ghost predicate FirstWith(cs: seq<Container>, f: int, base: string)
    requires LongIDs(cs)
  {
    && 0 <= f < |cs| && Tracked(cs[f]) && BaseName(cs[f]) == base
    && forall j :: 0 <= j < f && Tracked(cs[j]) ==> BaseName(cs[j]) != base
  }

  lemma FirstWithSnoc(cs: seq<Container>, n: nat, base: string)
    requires LongIDs(cs) && |cs| == n + 1 && LongIDs(cs[..n])
    ensures forall f :: f < n ==> (FirstWith(cs, f, base) <==> FirstWith(cs[..n], f, base))
    ensures FirstWith(cs, n, base) <==>
            Tracked(cs[n]) && BaseName(cs[n]) == base && forall f :: !FirstWith(cs[..n], f, base)
  {
    hide BaseName, Tracked;
    assert forall i :: 0 <= i < n ==> cs[..n][i] == cs[i];
    if j :| 0 <= j < n && Tracked(cs[j]) && BaseName(cs[j]) == base {
      SomeFirst(cs[..n], j, base);
    }
  }

  lemma {:induction false} SomeFirst(cs: seq<Container>, i: nat, base: string)
    requires LongIDs(cs) && i < |cs| && Tracked(cs[i]) && BaseName(cs[i]) == base
    ensures exists f :: f <= i && FirstWith(cs, f, base)
  {
    hide BaseName, Tracked;
    if j :| 0 <= j < i && Tracked(cs[j]) && BaseName(cs[j]) == base {
      SomeFirst(cs, j, base);
    } else {
      assert FirstWith(cs, i, base);
    }
  }

  /** A base name belongs to the first container that has it, for the rest of the pass. */
  lemma {:induction false} OwnerIsFirst(cs: seq<Container>, base: string)
    requires LongIDs(cs)
    ensures base in OwnersAfter(cs) <==> exists f :: FirstWith(cs, f, base)
    ensures forall f :: FirstWith(cs, f, base) ==> base in OwnersAfter(cs) && OwnersAfter(cs)[base] == cs[f].id
  {
    hide BaseName, FirstWith;
    if cs == [] {
      NoneFirst(base);
    } else {
      var n := |cs| - 1;
      Shorter(cs, n);
      OwnerIsFirst(cs[..n], base);
      FirstWithSnoc(cs, n, base);
      InRange(cs[..n], base);
      InRange(cs, base);
      assert forall i :: 0 <= i < n ==> cs[..n][i] == cs[i];
    }
  }

  lemma NoneFirst(base: string)
    ensures OwnersAfter([]) == map[] && forall f :: !FirstWith([], f, base)
  {
  }

  lemma InRange(cs: seq<Container>, base: string)
    requires LongIDs(cs)
    ensures forall f :: FirstWith(cs, f, base) ==> 0 <= f < |cs|
  {
  }

  /** A container gets the bare name when the first listed one of its base is the same container, and the suffixed
      name otherwise. */
  lemma NameGenerally(cs: seq<Container>, i: nat, f: int)
    requires LongIDs(cs) && i < |cs| && Tracked(cs[i]) && FirstWith(cs, f, BaseName(cs[i]))
    ensures NameAt(cs, i) == if cs[f].id == cs[i].id then BaseName(cs[i]) else BaseName(cs[i]) + "-" + cs[i].id[..6]
  {
    var before, base := cs[..i], BaseName(cs[i]);
    Shorter(cs, i);
    OwnerIsFirst(before, base);
    assert forall j :: 0 <= j < i ==> before[j] == cs[j];
    if f < i {
      assert FirstWith(before, f, base);
    } else {
      assert f == i;
    }
  }

  /** With pairwise different ids the first listed container of a base name gets the bare name, every later one the
      suffixed name. */
  lemma NameCharacterised(cs: seq<Container>, i: nat)
    requires LongIDs(cs) && DistinctIDs(cs) && i < |cs| && Tracked(cs[i])
    ensures NameAt(cs, i) == if FirstOfBase(cs, i) then BaseName(cs[i]) else BaseName(cs[i]) + "-" + cs[i].id[..6]
  {
    hide BaseName, NameAt;
    SomeFirst(cs, i, BaseName(cs[i]));
    var f :| f <= i && FirstWith(cs, f, BaseName(cs[i]));
    NameGenerally(cs, i, f);
  }

  /** Suffixed names of different bases never coincide. */
  lemma SuffixedInjective(a: string, ida: string, b: string, idb: string)
    requires |ida| >= 12 && |idb| >= 12
    ensures Suffixed(a, ida) == Suffixed(b, idb) <==> a == b && ida[..6] == idb[..6]
  {
    var x, y := Suffixed(a, ida), Suffixed(b, idb);
    if x == y {
      assert |a| == |b|;
      assert a == x[..|a|] && b == y[..|b|];
      assert ida[..6] == x[|a| + 1..] && idb[..6] == y[|b| + 1..];
    }
  }

  /** Two later containers of one base share their first six id characters. */
  predicate PrefixClash(c: Container, d: Container)
    requires |c.id| >= 12 && |d.id| >= 12
  {
    BaseName(c) == BaseName(d) && c.id[..6] == d.id[..6]
  }

  /** One container's suffixed name is the other's base name. */
  predicate BaseClash(c: Container, d: Container)
    requires |c.id| >= 12 && |d.id| >= 12
  {
    Suffixed(BaseName(c), c.id) == BaseName(d)
  }

  /** Container i is a later one of its base and its suffixed name is taken by container j. */
  ghost predicate Clash(cs: seq<Container>, i: nat, j: nat)
    requires LongIDs(cs) && i < |cs| && j < |cs|
  {
    && !FirstOfBase(cs, i)
    && if FirstOfBase(cs, j) then BaseClash(cs[i], cs[j]) else PrefixClash(cs[i], cs[j])
  }

  /** Two containers of one pass end up with the same name exactly when they clash. */
  lemma NamesCoincide(cs: seq<Container>, i: nat, j: nat)
    requires LongIDs(cs) && DistinctIDs(cs) && i < |cs| && j < |cs| && i != j && Tracked(cs[i]) && Tracked(cs[j])
    ensures NameAt(cs, i) == NameAt(cs, j) <==> Clash(cs, i, j) || Clash(cs, j, i)
  {
    NameCharacterised(cs, i);
    NameCharacterised(cs, j);
    SuffixedInjective(BaseName(cs[i]), cs[i].id, BaseName(cs[j]), cs[j].id);
  }

  /** The names of a pass are pairwise distinct exactly when no two later containers of a base share a
      six-character prefix and no suffixed name that is handed out is the base of a first container. */
  lemma AllNamesDistinct(cs: seq<Container>)
    requires LongIDs(cs) && DistinctIDs(cs)
    ensures (forall i: nat, j: nat :: i < |cs| && j < |cs| && i != j && Tracked(cs[i]) && Tracked(cs[j]) ==>
               NameAt(cs, i) != NameAt(cs, j))
            <==>
            (forall i: nat, j: nat :: i < |cs| && j < |cs| && i != j && Tracked(cs[i]) && Tracked(cs[j]) ==>
               !Clash(cs, i, j))
  {
    hide NameAt, Clash, DistinctIDs;
    forall i: nat, j: nat | i < |cs| && j < |cs| && i != j && Tracked(cs[i]) && Tracked(cs[j])
      ensures NameAt(cs, i) == NameAt(cs, j) <==> Clash(cs, i, j) || Clash(cs, j, i)
    {
      NamesCoincide(cs, i, j);
    }
  }

  /** The name follows the listing order, not the container: listed the other way round, two containers
      of one base trade the bare name. */
  lemma OrderDecidesTheName(c: Container, d: Container)
    requires |c.id| >= 12 && |d.id| >= 12 && c.id != d.id && Tracked(c) && Tracked(d) && BaseName(c) == BaseName(d)
    ensures NameAt([c, d], 0) == BaseName(c) && NameAt([d, c], 1) == Suffixed(BaseName(c), c.id) != BaseName(c)
  {
    hide BaseName;
    var cd, dc := [c, d], [d, c];
    assert cd[0] == dc[1] == c && cd[1] == dc[0] == d;
    assert FirstOfBase(cd, 0);
    assert !FirstOfBase(dc, 1);
    NameCharacterised(cd, 0);
    NameCharacterised(dc, 1);
    assert |Suffixed(BaseName(c), c.id)| > |BaseName(c)|;
  }
}
