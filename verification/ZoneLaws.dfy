/** Hosts, zones and the labels that name them, told from their spelling. */
module ZoneLaws {
  import opened Options
  import opened Text
  import opened Names
  import opened Zones

  /** A host between white space is lowered and loses one trailing dot. */
  lemma NormalizeHostExact(a: string, host: string, b: string)
    requires (forall i :: 0 <= i < |a| ==> IsSpace(a[i])) && (forall i :: 0 <= i < |b| ==> IsSpace(b[i]))
    requires Trimmed(host, IsSpace)
    ensures NormalizeHost(a + host + b) == NormalizeHost(host)
    ensures NormalizeHost(host) == ToLower(if host != "" && host[|host| - 1] == '.' then host[..|host| - 1] else host)
  {
    hide Trim;
    LoweredAround(a, host, b);
    TrimMiddle(ToLower(a), ToLower(host), ToLower(b), IsSpace);
    TrimIsTrimmed(ToLower(host), IsSpace);
    if host != "" {
      var low := ToLower(host);
      assert low[|low| - 1..] == [low[|low| - 1]];
      assert low[|low| - 1] == '.' <==> host[|host| - 1] == '.';
      assert low[..|low| - 1] == ToLower(host[..|host| - 1]);
    }
  }

  lemma LoweredAround(a: string, m: string, b: string)
    requires (forall i :: 0 <= i < |a| ==> IsSpace(a[i])) && (forall i :: 0 <= i < |b| ==> IsSpace(b[i]))
    requires Trimmed(m, IsSpace)
    ensures ToLower(a + m + b) == ToLower(a) + ToLower(m) + ToLower(b)
    ensures (forall i :: 0 <= i < |ToLower(a)| ==> IsSpace(ToLower(a)[i])) && Trimmed(ToLower(m), IsSpace)
    ensures forall i :: 0 <= i < |ToLower(b)| ==> IsSpace(ToLower(b)[i])
  {
    forall c: char ensures IsSpace(LowerChar(c)) <==> IsSpace(c) {
    }
  }

  /** A zone begins with the label t3 and has at least three. */
  ghost predicate ServedZone(z: string) {
    exists x, y :: z == Three(x, y)
  }

  function Three(x: string, y: string): string {
    "t3." + x + "." + y
  }

  lemma ThreeLabels(z: string)
    ensures |Split(z, '.')| >= 3 && Split(z, '.')[0] == "t3" <==> ServedZone(z)
  {
    var parts := Split(z, '.');
    if |parts| >= 3 && parts[0] == "t3" {
      JoinSplit(z, '.');
      var rest := parts[1..];
      assert rest[1..] == parts[2..];
      assert Join(rest, '.') == parts[1] + ['.'] + Join(parts[2..], '.');
      assert z == Three(parts[1], Join(parts[2..], '.'));
    }
    if x, y :| z == Three(x, y) {
      assert z == "t3" + ['.'] + (x + ['.'] + y);
      SplitAppend("t3", x + ['.'] + y, '.');
      SplitAppend(x, y, '.');
      SplitWhole("t3", '.');
      assert Split(z, '.') == ["t3"] + (Split(x, '.') + Split(y, '.'));
    }
  }

  /** A host names a zone as a wildcard exactly when it is "*." and the zone. */
  lemma WildcardZoneExact(host: string, z: string)
    ensures WildcardZone(host) == Some(z) <==> host == "*." + z && ServedZone(z)
  {
    if HasPrefix(host, "*.") {
      assert host == "*." + host[2..];
      ThreeLabels(host[2..]);
    }
    if host == "*." + z {
      assert host[..2] == "*." && host[2..] == z;
    }
  }

  predicate Digits(s: string) {
    s != "" && forall i :: 0 <= i < |s| ==> '0' <= s[i] <= '9'
  }

  /** caddy, or caddy_ and a number. */
  ghost predicate SiteKey(key: string) {
    key == "caddy" || exists n :: Digits(n) && key == "caddy_" + n
  }

  lemma SiteKeyExact(key: string)
    ensures IsCaddySiteLabel(key) <==> SiteKey(key)
  {
    if IsCaddySiteLabel(key) && key != "caddy" {
      var n := key[6..];
      assert key == "caddy_" + n;
      assert Digits(n);
    }
    if n :| Digits(n) && key == "caddy_" + n {
      assert key[..6] == "caddy_";
      assert forall i :: 6 <= i < |key| ==> key[i] == n[i - 6];
    }
  }

  lemma {:induction false} ZonesInExact(hosts: seq<string>, z: string)
    ensures z in ZonesIn(hosts) <==> exists i :: 0 <= i < |hosts| && WildcardZone(NormalizeHost(hosts[i])) == Some(z)
  {
    hide NormalizeHost, WildcardZone;
    if hosts != [] {
      ZonesInExact(hosts[..|hosts| - 1], z);
    }
  }

  /** The hosts of a label's value stand between commas. */
  ghost predicate ValueHost(value: string, host: string) {
    host in Split(value, ',')
  }

  /** Some site label has a host that names z, white space, case and one trailing dot aside. */
  ghost predicate Named(labels: map<string, string>, z: string) {
    exists key, host :: key in labels && SiteKey(key) && ValueHost(labels[key], host) && NormalizeHost(host) == "*." + z
  }

  lemma IsZoneExact(labels: map<string, string>, z: string)
    ensures IsZone(labels, z) <==> ServedZone(z) && Named(labels, z)
  {
    hide NormalizeHost, WildcardZone, IsCaddySiteLabel, SiteKey, ServedZone, Split, ZonesIn;
    if IsZone(labels, z) {
      var key :| key in labels && IsCaddySiteLabel(key) && ValueNamesZone(labels[key], z);
      SiteKeyExact(key);
      ZonesInExact(Split(labels[key], ','), z);
      var i :| 0 <= i < |Split(labels[key], ',')| && WildcardZone(NormalizeHost(Split(labels[key], ',')[i])) == Some(z);
      var host := Split(labels[key], ',')[i];
      WildcardZoneExact(NormalizeHost(host), z);
      assert ValueHost(labels[key], host);
    }
    if ServedZone(z) && Named(labels, z) {
      var key, host :|
        key in labels && SiteKey(key) && ValueHost(labels[key], host) && NormalizeHost(host) == "*." + z;
      SiteKeyExact(key);
      WildcardZoneExact(NormalizeHost(host), z);
      ZonesInExact(Split(labels[key], ','), z);
      var i :| 0 <= i < |Split(labels[key], ',')| && Split(labels[key], ',')[i] == host;
      assert ValueNamesZone(labels[key], z);
    }
  }

  /** Between its commas a value is its hosts. */
  lemma ValueIsItsHosts(value: string)
    ensures Join(Split(value, ','), ',') == value && forall host :: ValueHost(value, host) ==> ',' !in host
  {
    JoinSplit(value, ',');
    SplitParts(value, ',');
  }

  /** A name is published below the primary zone, or alone when there is none; a blank one is not published. */
  lemma PublishedExact(primaryZone: string, a: string, name: string, b: string)
    requires (forall i :: 0 <= i < |a| ==> IsSpace(a[i])) && (forall i :: 0 <= i < |b| ==> IsSpace(b[i]))
    requires Trimmed(name, IsSpace)
    ensures PublishedHostname(primaryZone, a + name + b) ==
            if name == "" then "" else if primaryZone == "" then ToLower(name) else ToLower(name) + "." + primaryZone
  {
    hide Trim;
    LoweredAround(a, name, b);
    TrimMiddle(ToLower(a), ToLower(name), ToLower(b), IsSpace);
  }
}
