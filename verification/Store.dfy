/** The store: the two tables as fields, updated in place. A clock reading is an argument. */
module Stores {
  import opened Options
  import opened Text
  import opened Sorting
  import opened Tables

  class Store {
    var environments: map<string, Environment>
    var exposures: map<Key, Exposure>

    function Contents(): DB
      reads this
    {
      DB(environments, exposures)
    }

    ghost predicate Valid()
      reads this
    {
      Keyed(Contents()) && LabelsUnique(Contents())
    }

    /** OpenStore on a fresh file. */
    constructor ()
      ensures Valid() && Contents() == DB(map[], map[])
    {
      environments := map[];
      exposures := map[];
    }

    method UpsertExposure(x: Exposure, now: int) returns (ok: bool)
      requires Valid()
      modifies this
      ensures Valid()
      ensures ok <==> Tables.UpsertExposure(old(Contents()), x, now).Some?
      ensures Contents() == Execute(old(Contents()), SUpsertExposure(x), now)
      ensures !ok <==> exists k :: k in old(exposures) && k != KeyOf(x) && old(exposures)[k].hostLabel == x.hostLabel
      ensures !ok ==> exposures == old(exposures)
      ensures ok ==> exposures.Keys == old(exposures).Keys + {KeyOf(x)}
      ensures ok ==>
                exposures[KeyOf(x)] ==
                x.(createdAt := if KeyOf(x) in old(exposures) then old(exposures)[KeyOf(x)].createdAt
                                else if x.createdAt == 0 then now else x.createdAt,
                   lastSeen := if x.lastSeen == 0 then now else x.lastSeen)
      ensures forall k :: k in old(exposures) && k != KeyOf(x) ==> k in exposures && exposures[k] == old(exposures)[k]
      ensures environments == old(environments)
    {
      UpsertExposureKeepsKeys(Contents(), x, now);
      var r := Tables.UpsertExposure(Contents(), x, now);
      ok := r.Some?;
      if ok {
        exposures := r.value.exps;
      }
    }

    method GetExposureByHostLabel(hostLabel: string, now: int) returns (r: Option<Exposure>)
      requires Valid()
      ensures r == ExposureByLabel(Contents(), hostLabel, now)
      ensures forall x :: r == Some(x) <==> x in exposures.Values && x.hostLabel == hostLabel && x.expiresAt > now
    {
      if k :| k in exposures && Live(exposures[k], hostLabel, now) {
        LabelIsOneRow(Contents(), k, now);
        r := Some(exposures[k]);
      } else {
        r := None;
      }
    }

    method ListExposures(id: string, now: int) returns (rows: seq<Exposure>)
      requires Valid()
      ensures IsListing(Contents(), id, now, rows)
      ensures forall x :: x in rows <==> x in exposures.Values && x.environmentID == id && x.expiresAt > now
      ensures forall i, j :: 0 <= i < j < |rows| ==> LexLess(rows[i].name, rows[j].name)
    {
      var left := set k | k in exposures && exposures[k].environmentID == id && exposures[k].expiresAt > now;
      ghost var all := left;
      rows := [];
      while left != {}
        invariant left <= all
        invariant forall x :: x in rows <==> exists k :: k in all - left && exposures[k] == x
        invariant forall i, j :: 0 <= i < j < |rows| ==> rows[i].name != rows[j].name
        decreases left
      {
        var k :| k in left;
        forall x | x in rows ensures x.name != exposures[k].name {
          var l :| l in all - left && exposures[l] == x;
        }
        ghost var before, done := rows, all - left;
        rows := rows + [exposures[k]];
        left := left - {k};
        assert all - left == done + {k};
        forall x ensures x in rows <==> exists l :: l in all - left && exposures[l] == x {
          assert x in rows <==> x in before || x == exposures[k];
        }
      }
      assert all - left == all;
      SortByName(rows);
      SortElements(rows, NameBefore);
      rows := Sort(rows, NameBefore);
    }

    method DeleteExposure(environmentID: string, name: string) returns (deleted: bool)
      requires Valid()
      modifies this
      ensures Valid()
      ensures deleted <==> Key(environmentID, name) in old(Contents()).exps
      ensures Contents() == Tables.DeleteExposure(old(Contents()), Key(environmentID, name))
      ensures exposures == old(exposures) - {Key(environmentID, name)} && environments == old(environments)
    {
      deleted := Key(environmentID, name) in exposures;
      exposures := exposures - {Key(environmentID, name)};
    }

    method DeleteExpiredExposures(now: int)
      requires Valid()
      modifies this
      ensures Valid()
      ensures Contents() == DeleteExpired(old(Contents()), now)
      ensures forall k :: k in exposures <==> k in old(exposures) && old(exposures)[k].expiresAt > now
      ensures forall k :: k in exposures ==> exposures[k] == old(exposures)[k]
      ensures environments == old(environments)
    {
      exposures := map k | k in exposures && exposures[k].expiresAt > now :: exposures[k];
    }

    method Upsert(env: Environment, now: int)
      requires Valid()
      modifies this
      ensures Valid()
      ensures Contents() == UpsertEnv(old(Contents()), env, now)
      ensures env.id in environments
      ensures environments[env.id].(firstSeen := env.firstSeen)
              == env.(lastSeen := if env.lastSeen == 0 then now else env.lastSeen)
      ensures environments[env.id].firstSeen
              == if env.id in old(environments) then old(environments)[env.id].firstSeen else env.firstSeen
      ensures forall id :: id != env.id ==> (id in environments <==> id in old(environments))
      ensures forall id :: id != env.id && id in environments ==> environments[id] == old(environments)[id]
      ensures exposures == old(exposures)
    {
      environments := UpsertEnv(Contents(), env, now).envs;
    }

    method MarkStopped(containerID: string)
      requires Valid()
      modifies this
      ensures Valid()
      ensures Contents() == Tables.MarkStopped(old(Contents()), containerID)
      ensures environments.Keys == old(environments).Keys && exposures == old(exposures)
      ensures forall id :: id in environments && old(environments)[id].containerID != containerID ==>
                environments[id] == old(environments)[id]
      ensures forall id :: id in environments && old(environments)[id].containerID == containerID ==>
                environments[id] == old(environments)[id].(status := Stopped)
    {
      environments := Tables.MarkStopped(Contents(), containerID).envs;
    }

    /** Two statements: first the exposures, then the row. */
    method DeleteByID(id: string) returns (deleted: bool)
      requires Valid()
      modifies this
      ensures Valid()
      ensures deleted <==> id in old(Contents()).envs
      ensures Contents() == DeleteEnv(DeleteExposuresOf(old(Contents()), id), id)
      ensures environments == old(environments) - {id}
      ensures forall k :: k in exposures <==> k in old(exposures) && old(exposures)[k].environmentID != id
      ensures forall k :: k in exposures ==> exposures[k] == old(exposures)[k]
    {
      exposures := DeleteExposuresOf(Contents(), id).exps;
      deleted := id in environments;
      environments := environments - {id};
    }

    /** Every row once, latest last_seen first. */
    method List() returns (rows: seq<Environment>)
      requires Valid()
      ensures Ordered(rows, SeenAfterOrWith)
      ensures forall e :: e in rows <==> e in Contents().envs.Values
      ensures Distinct(rows)
      ensures forall i, j :: 0 <= i < j < |rows| ==> rows[i].lastSeen >= rows[j].lastSeen
    {
      var left := environments.Keys;
      rows := [];
      while left != {}
        invariant left <= environments.Keys
        invariant forall e :: e in rows <==> exists id :: id in environments && id !in left && environments[id] == e
        invariant forall e :: e in rows ==> e.id !in left
        invariant Distinct(rows)
        decreases left
      {
        var id :| id in left;
        ghost var before := rows;
        rows := rows + [environments[id]];
        ghost var rest := left - {id};
        forall e ensures e in rows <==> exists i :: i in environments && i !in rest && environments[i] == e {
          assert e in rows <==> e in before || e == environments[id];
        }
        left := left - {id};
      }
      SortBySeen(rows);
      SortElements(rows, SeenAfter);
      SortDistinct(rows, SeenAfter);
      rows := Sort(rows, SeenAfter);
    }

    method GetByName(name: string) returns (r: Option<Environment>)
      requires Valid()
      ensures r.Some? <==> NameTaken(Contents(), name)
      ensures r.Some? ==> r.value in Contents().envs.Values && r.value.name == name
    {
      if id :| id in environments && environments[id].name == name {
        r := Some(environments[id]);
      } else {
        r := None;
      }
    }

    method GetByID(id: string) returns (r: Option<Environment>)
      requires Valid()
      ensures r == if id in Contents().envs then Some(Contents().envs[id]) else None
    {
      r := if id in environments then Some(environments[id]) else None;
    }
  }

  predicate SeenAfter(a: Environment, b: Environment) {
    a.lastSeen > b.lastSeen
  }

  predicate SeenAfterOrWith(a: Environment, b: Environment) {
    a.lastSeen >= b.lastSeen
  }

  lemma SortBySeen(rows: seq<Environment>)
    ensures Ordered(Sort(rows, SeenAfter), SeenAfterOrWith)
  {
    SortOrders(rows, SeenAfter, SeenAfterOrWith);
  }

  lemma SortByName(rows: seq<Exposure>)
    requires forall i, j :: 0 <= i < j < |rows| ==> rows[i].name != rows[j].name
    ensures Ordered(Sort(rows, NameBefore), NameBefore)
  {
    forall x: Exposure, y: Exposure, z: Exposure | NameBefore(x, y) && NameBefore(y, z) ensures NameBefore(x, z) {
      LexTransitive(x.name, y.name, z.name);
    }
    forall i, j | 0 <= i < |rows| && 0 <= j < |rows| && i != j
      ensures NameBefore(rows[i], rows[j]) || NameBefore(rows[j], rows[i])
    {
      LexTotal(rows[i].name, rows[j].name);
    }
    SortOrders(rows, NameBefore, NameBefore);
  }
}
