/** Served zones: finding them in Caddy labels, parsing a host against them, publishing a host. */
module Zones {
  import opened Options
  import opened Text
  import opened Sorting
  import opened Names

  function NormalizeHost(host: string): string {
    TrimSuffix(Trim(ToLower(host), IsSpace), ".")
  }

  /** What normalising must not leave at the end of a host. */
  predicate CleanEnd(h: string) {
    h != "" ==> h[|h| - 1] != '.' && !IsSpace(h[|h| - 1])
  }

  /** The one trailing dot that is dropped stands behind another dot or white space. */
  predicate UncoversEnd(t: string) {
    |t| >= 2 && t[|t| - 1] == '.' && (t[|t| - 2] == '.' || IsSpace(t[|t| - 2]))
  }

  /** Only one trailing dot goes, after the white space: normalising is stable exactly when no further dot or white
      space stands before it. */
  lemma NormalizeHostStable(host: string)
    ensures NormalizeHost(NormalizeHost(host)) == NormalizeHost(host) <==> !UncoversEnd(Trim(ToLower(host), IsSpace))
  {
    hide IsSpace, Leading, Trailing, ToLower;
    NormalizedHostForm(host);
    FixedHost(NormalizeHost(host));
    var t := Trim(ToLower(host), IsSpace);
    TrimIsTrimmed(ToLower(host), IsSpace);
    if t != "" {
      assert HasSuffix(t, ".") <==> t[|t| - 1] == '.' by {
        assert t[|t| - 1..] == [t[|t| - 1]];
      }
    }
  }

  /** At "a..", for one, it is not. */
  lemma TwoDotsAreUnstable()
    ensures NormalizeHost("a..") == "a." && NormalizeHost("a.") == "a"
  {
    assert ToLower("a..") == "a.." && ToLower("a.") == "a.";
    TrimIsTrimmed("a..", IsSpace);
    TrimIsTrimmed("a.", IsSpace);
    assert "a.."[2..] == "." && "a."[1..] == ".";
  }

  lemma NormalizedHostForm(host: string)
    ensures IsLower(NormalizeHost(host))
    ensures NormalizeHost(host) != "" ==> !IsSpace(NormalizeHost(host)[0])
  {
    hide IsSpace, Leading, Trailing, ToLower, IsLower;
    var low := ToLower(host);
    var l := TrimLeft(low, IsSpace);
    var t := TrimRight(l, IsSpace);
    var r := NormalizeHost(host);
    ToLowerIsLower(host);
    LowerSlice(low, |low| - |l|, |low|);
    LowerSlice(l, 0, |t|);
    LowerSlice(t, 0, |r|);
    assert t[0..|r|] == r;
    assert r != "" ==> r[0] == t[0] == l[0] == low[|low| - |l|];
  }

  lemma FixedHost(h: string)
    ensures NormalizeHost(h) == h <==> IsLower(h) && CleanEnd(h) && (h != "" ==> !IsSpace(h[0]))
  {
    var low := ToLower(h);
    var t := Trim(low, IsSpace);
    TrimIsTrimmed(low, IsSpace);
    TrimShrinks(low, IsSpace);
    ToLowerIsLower(h);
    if h != "" {
      assert low[0] == LowerChar(h[0]) && low[|h| - 1] == LowerChar(h[|h| - 1]);
      assert HasSuffix(h, ".") <==> h[|h| - 1] == '.' by {
        assert h[|h| - 1..] == [h[|h| - 1]];
      }
    }
    if NormalizeHost(h) == h {
      assert |t| == |h|;
      assert t == low;
      assert !HasSuffix(t, ".");
      assert low == h;
    }
  }

  predicate IsCaddySiteLabel(key: string) {
    key == "caddy" ||
    (HasPrefix(key, "caddy_") && key != "caddy_" &&
     forall i :: |"caddy_"| <= i < |key| ==> '0' <= key[i] <= '9')
  }

  function WildcardZone(host: string): Option<string> {
    if !HasPrefix(host, "*.") then None
    else
      var zone := host[2..];
      var parts := Split(zone, '.');
      if |parts| < 3 || parts[0] != "t3" then None else Some(zone)
  }

  /** The zones among a list of hosts. */
  function ZonesIn(hosts: seq<string>): set<string> {
    if hosts == [] then {}
    else
      var zone := WildcardZone(NormalizeHost(hosts[|hosts| - 1]));
      ZonesIn(hosts[..|hosts| - 1]) + (if zone.Some? then {zone.value} else {})
  }

  /** z is one of the zones that a site label's value names. */
  predicate ValueNamesZone(value: string, z: string) {
    z in ZonesIn(Split(value, ','))
  }

  predicate IsZoneAmong(labels: map<string, string>, keys: set<string>, z: string) {
    exists key :: key in keys && key in labels && IsCaddySiteLabel(key) && ValueNamesZone(labels[key], z)
  }

  predicate IsZone(labels: map<string, string>, z: string) {
    IsZoneAmong(labels, labels.Keys, z)
  }

  predicate Longer(a: string, b: string) {
    |a| > |b|
  }

  /** Longest first, then lexicographic. */
  predicate ZoneBefore(a: string, b: string) {
    |a| > |b| || (|a| == |b| && LexLess(a, b))
  }

  lemma ZoneBeforeIrreflexive(a: string, b: string)
    ensures !(ZoneBefore(a, b) && ZoneBefore(b, a)) && !ZoneBefore(a, a)
  {
    LexTotal(a, b);
  }

  lemma SortLex(s: seq<string>)
    requires Distinct(s)
    ensures Ordered(Sort(s, LexLess), LexLess)
  {
    forall x, y, z | LexLess(x, y) && LexLess(y, z) ensures LexLess(x, z) {
      LexTransitive(x, y, z);
    }
    forall i, j | 0 <= i < |s| && 0 <= j < |s| && i != j ensures LexLess(s[i], s[j]) || LexLess(s[j], s[i]) {
      LexTotal(s[i], s[j]);
    }
    SortOrders(s, LexLess, LexLess);
  }

  /** Stability: an earlier element of equal length stays in front. */
  lemma {:induction false} InsertLonger(x: string, s: seq<string>)
    requires Ordered(s, ZoneBefore) && forall y :: y in s ==> LexLess(x, y)
    ensures Ordered(Insert(x, s, Longer), ZoneBefore)
  {
    if s != [] && Longer(s[0], x) {
      var t := s[1..];
      InsertLonger(x, t);
      InsertPermutes(x, t, Longer);
      var r := Insert(x, t, Longer);
      forall i | 0 <= i < |r| ensures ZoneBefore(s[0], r[i]) {
        assert r[i] in multiset(r);
        assert r[i] == x || r[i] in t;
      }
    } else if s != [] {
      forall i | 0 <= i < |s| ensures ZoneBefore(x, s[i]) {
        assert i == 0 || ZoneBefore(s[0], s[i]);
      }
    }
  }

  lemma {:induction false} SortLonger(s: seq<string>)
    requires Ordered(s, LexLess)
    ensures Ordered(Sort(s, Longer), ZoneBefore)
  {
    if s != [] {
      SortLonger(s[1..]);
      SortElements(s[1..], Longer);
      InsertLonger(s[0], Sort(s[1..], Longer));
    }
  }

  /** wildcardZonesFromLabels. Both maps are walked in an order of the runtime's choosing. */
  method WildcardZonesFromLabels(labels: map<string, string>) returns (zones: seq<string>)
    ensures Ordered(zones, ZoneBefore)
    ensures forall i, j :: 0 <= i < j < |zones| ==>
              |zones[i]| > |zones[j]| || (|zones[i]| == |zones[j]| && LexLess(zones[i], zones[j]))
    ensures forall z :: z in zones <==> IsZone(labels, z)
  {
    var seen: set<string> := {};
    var keys := labels.Keys;
    ghost var done := {};
    while keys != {}
      invariant keys <= labels.Keys && done == labels.Keys - keys
      invariant forall z :: z in seen <==> IsZoneAmong(labels, done, z)
      decreases keys
    {
      var key :| key in keys;
      OneMoreLabel(labels, done, key);
      if IsCaddySiteLabel(key) {
        seen := AddZones(seen, labels[key]);
      }
      keys := keys - {key};
      done := done + {key};
    }
    assert done == labels.Keys;
    zones := SortedZones(labels, seen);
  }

  lemma OneMoreLabel(labels: map<string, string>, done: set<string>, key: string)
    requires key in labels
    ensures forall z :: IsZoneAmong(labels, done + {key}, z) <==>
                        IsZoneAmong(labels, done, z) || (IsCaddySiteLabel(key) && ValueNamesZone(labels[key], z))
  {
  }

  method SortedZones(ghost labels: map<string, string>, all: set<string>) returns (zones: seq<string>)
    requires forall z :: z in all <==> IsZone(labels, z)
    ensures Ordered(zones, ZoneBefore)
    ensures forall z :: z in zones <==> IsZone(labels, z)
  {
    var seen := all;
    zones := [];
    while seen != {}
      invariant forall z :: z in zones || z in seen <==> z in all
      invariant forall z :: z in seen ==> z !in zones
      invariant Distinct(zones)
      decreases seen
    {
      var zone :| zone in seen;
      seen := seen - {zone};
      zones := zones + [zone];
    }
    SortTwice(zones);
    zones := Sort(zones, LexLess);
    zones := Sort(zones, Longer);
  }

  lemma SortTwice(zones: seq<string>)
    requires Distinct(zones)
    ensures Ordered(Sort(Sort(zones, LexLess), Longer), ZoneBefore)
    ensures forall z :: z in Sort(Sort(zones, LexLess), Longer) <==> z in zones
  {
    SortLex(zones);
    SortElements(zones, LexLess);
    SortLonger(Sort(zones, LexLess));
    SortElements(Sort(zones, LexLess), Longer);
  }

  method AddZones(seen: set<string>, value: string) returns (r: set<string>)
    ensures forall z :: z in r <==> z in seen || ValueNamesZone(value, z)
  {
    hide WildcardZone, NormalizeHost, Split;
    r := seen;
    var hosts := Split(value, ',');
    for i := 0 to |hosts|
      invariant r == seen + ZonesIn(hosts[..i])
    {
      assert hosts[..i + 1][..i] == hosts[..i];
      var zone := WildcardZone(NormalizeHost(hosts[i]));
      if zone.Some? {
        r := r + {zone.value};
      }
    }
    assert hosts[..|hosts|] == hosts;
  }

  /** The list does not depend on the order in which the maps were walked. */
  lemma ZonesDetermined(labels: map<string, string>, a: seq<string>, b: seq<string>)
    requires Ordered(a, ZoneBefore) && Ordered(b, ZoneBefore)
    requires forall z :: z in a <==> IsZone(labels, z)
    requires forall z :: z in b <==> IsZone(labels, z)
    ensures a == b && Distinct(a)
  {
    forall x, y ensures !(ZoneBefore(x, y) && ZoneBefore(y, x)) && !ZoneBefore(x, x) {
      ZoneBeforeIrreflexive(x, y);
    }
    OrderedUnique(a, b, ZoneBefore);
  }

  datatype Served = Served(name: string, zone: string)

  /** parseServedHost on a normalised host: the first zone that fits decides. */
  function ParseNormalized(host: string, zones: seq<string>): Option<Served> {
    if zones == [] then None
    else if !HasSuffix(host, "." + zones[0]) then ParseNormalized(host, zones[1..])
    else
      var name := TrimSuffix(host, "." + zones[0]);
      if name == "" || '.' in name then None else Some(Served(name, zones[0]))
  }

  function ParseServed(host: string, zones: seq<string>): Option<Served> {
    if NormalizeHost(host) == "" then None else ParseNormalized(NormalizeHost(host), zones)
  }

  method ParseServedHost(input: string, zones: seq<string>) returns (r: Option<Served>)
    ensures r == ParseServed(input, zones)
  {
    var host := NormalizeHost(input);
    if host == "" {
      return None;
    }
    for i := 0 to |zones|
      invariant ParseNormalized(host, zones) == ParseNormalized(host, zones[i..])
    {
      var suffix := "." + zones[i];
      if HasSuffix(host, suffix) {
        var name := TrimSuffix(host, suffix);
        if name == "" || '.' in name {
          return None;
        }
        return Some(Served(name, zones[i]));
      }
    }
    return None;
  }

  predicate LongestFirst(a: string, b: string) {
    |a| >= |b|
  }

  /** The host is name.zone with a one-label name. */
  predicate Denotes(host: string, name: string, zone: string) {
    name != "" && '.' !in name && host == name + "." + zone
  }

  lemma DenotesUnique(host: string, n: string, z: string, n': string, z': string)
    requires Denotes(host, n, z) && Denotes(host, n', z')
    ensures n == n' && z == z'
  {
    assert host[|n|] == '.' && host[|n'|] == '.';
    assert forall i :: 0 <= i < |n| ==> n[i] == host[i] && n[i] != '.';
    assert forall i :: 0 <= i < |n'| ==> n'[i] == host[i] && n'[i] != '.';
    assert n == host[..|n|] && n' == host[..|n'|];
    assert z == host[|n| + 1..] && z' == host[|n'| + 1..];
  }

  /** A zone that fits and is at least as long as the right one is the right one. */
  lemma LongerFitIsEqual(host: string, n: string, z: string, z': string)
    requires Denotes(host, n, z) && |z'| >= |z| && HasSuffix(host, "." + z')
    ensures z' == z
  {
    var k := |host| - |z'| - 1;
    assert host[k..] == "." + z';
    assert host[k] == '.';
    assert forall i :: 0 <= i < |n| ==> n[i] == host[i] && n[i] != '.';
    assert k == |n|;
    assert z' == host[k + 1..];
  }

  lemma CutOff(host: string, zone: string)
    requires HasSuffix(host, "." + zone)
    ensures host == TrimSuffix(host, "." + zone) + "." + zone
  {
    assert host[|host| - |("." + zone)|..] == "." + zone;
  }

  lemma DenotedFits(host: string, name: string, zone: string)
    requires Denotes(host, name, zone)
    ensures HasSuffix(host, "." + zone) && TrimSuffix(host, "." + zone) == name
  {
    assert host[|host| - |("." + zone)|..] == "." + zone;
    assert host[..|host| - |("." + zone)|] == name;
  }

  lemma {:induction false} ParseNormalizedExact(host: string, zones: seq<string>, name: string, zone: string)
    requires Ordered(zones, LongestFirst)
    ensures ParseNormalized(host, zones) == Some(Served(name, zone)) <==> zone in zones && Denotes(host, name, zone)
  {
    hide HasSuffix, TrimSuffix;
    if zones != [] {
      var z := zones[0];
      assert Ordered(zones[1..], LongestFirst);
      ParseNormalizedExact(host, zones[1..], name, zone);
      if zone in zones && Denotes(host, name, zone) {
        DenotedFits(host, name, zone);
        if HasSuffix(host, "." + z) {
          LongerFitIsEqual(host, name, zone, z);
        }
      } else if HasSuffix(host, "." + z) {
        CutOff(host, z);
      }
    }
  }

  /** Returning at the first zone that fits loses nothing: over zones listed longest first, a
      host parses exactly when it is name.zone with a one-label name, and then in one way only. */
  lemma ParseServedExact(host: string, zones: seq<string>, name: string, zone: string)
    requires Ordered(zones, LongestFirst)
    ensures ParseServed(host, zones) == Some(Served(name, zone)) <==>
            zone in zones && Denotes(NormalizeHost(host), name, zone)
  {
    ParseNormalizedExact(NormalizeHost(host), zones, name, zone);
  }

  /** The order matters: a shorter zone listed first turns away hosts of every longer zone under it. */
  lemma ShortZoneFirstRejects(host: string, name: string, left: string, zone: string)
    requires Denotes(host, name, left + "." + zone) && left != "" && NormalizeHost(host) == host
    ensures ParseServed(host, [zone, left + "." + zone]) == None
    ensures ParseServed(host, [left + "." + zone, zone]) == Some(Served(name, left + "." + zone))
  {
    hide NormalizeHost;
    ParseServedExact(host, [left + "." + zone, zone], name, left + "." + zone);
    var cut := name + "." + left;
    Regroup(name, left, zone);
    assert host == cut + ("." + zone);
    assert HasSuffix(host, "." + zone) && TrimSuffix(host, "." + zone) == cut;
    assert cut[|name|] == '.';
  }

  function PrimaryZone(zones: seq<string>, domainSuffix: string, relayHost: string): string {
    if |zones| > 0 then zones[0]
    else if NormalizeHost(domainSuffix) != "" then NormalizeHost(domainSuffix)
    else if HasPrefix(NormalizeHost(relayHost), "relay.") then TrimPrefix(NormalizeHost(relayHost), "relay.")
    else ""
  }

  function PublishedHostname(primaryZone: string, input: string): string {
    var name := Trim(ToLower(input), IsSpace);
    if name == "" then ""
    else if primaryZone == "" then name
    else name + "." + primaryZone
  }

  /** A zone that a published host can end in and still be recognised. */
  predicate Reachable(zone: string) {
    zone != "" && IsLower(zone) && CleanEnd(zone)
  }

  lemma PublishedLabel(primaryZone: string, name: string)
    requires IsLabel(name) && name != "" && primaryZone != ""
    ensures PublishedHostname(primaryZone, name) == name + "." + primaryZone
    ensures '.' !in name
  {
    assert forall i :: 0 <= i < |name| ==> LabelChar(name[i]);
    assert IsLower(name) && Trimmed(name, IsSpace);
    ToLowerIsLower(name);
    TrimIsTrimmed(name, IsSpace);
  }

  /** Publishing then parsing gives a label back exactly when the primary zone is reachable. */
  lemma PublishedParses(name: string, primaryZone: string, zones: seq<string>)
    requires IsLabel(name) && name != ""
    requires Ordered(zones, LongestFirst) && primaryZone in zones
    ensures ParseServed(PublishedHostname(primaryZone, name), zones) == Some(Served(name, primaryZone))
            <==> Reachable(primaryZone)
  {
    var host := PublishedHostname(primaryZone, name);
    ParseServedExact(host, zones, name, primaryZone);
    if primaryZone == "" {
      NormalizedLength(host);
      TrimShrinks(ToLower(name), IsSpace);
      assert |host| <= |name| < |name + "." + primaryZone|;
    } else {
      PublishedLabel(primaryZone, name);
      ServedHostFixed(name, primaryZone);
    }
  }

  lemma NormalizedLength(host: string)
    ensures |NormalizeHost(host)| <= |host|
  {
    TrimShrinks(ToLower(host), IsSpace);
  }

  lemma ServedHostFixed(name: string, zone: string)
    requires IsLabel(name) && name != "" && zone != ""
    ensures NormalizeHost(name + "." + zone) == name + "." + zone <==> Reachable(zone)
  {
    var host := name + "." + zone;
    assert IsLower(host) <==> IsLower(zone) by {
      LowerParts(name + ".", zone);
      LowerParts(name, ".");
      assert forall i :: 0 <= i < |name| ==> LabelChar(name[i]);
    }
    assert host[0] == name[0] && LabelChar(name[0]);
    assert !IsSpace(host[0]);
    assert CleanEnd(host) <==> CleanEnd(zone) by {
      assert host[|host| - 1] == zone[|zone| - 1];
    }
    FixedHost(host);
  }
}
