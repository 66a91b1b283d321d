/** Environment and exposure names, and the host label that joins the two. */
module Names {
  import opened Text

  /** What sanitizeRe leaves alone. */
  predicate LabelChar(c: char) {
    'a' <= c <= 'z' || '0' <= c <= '9' || c == '-'
  }

  predicate IsLabel(s: string) {
    forall i :: 0 <= i < |s| ==> LabelChar(s[i])
  }

  /** Replaces each maximal run of characters outside [a-z0-9-] by one hyphen. */
  function ReplaceRuns(s: string): string {
    if s == [] then []
    else if LabelChar(s[0]) then [s[0]] + ReplaceRuns(s[1..])
    else if |s| > 1 && !LabelChar(s[1]) then ReplaceRuns(s[1..])
    else ['-'] + ReplaceRuns(s[1..])
  }

  lemma {:induction false} ReplaceRunsIsLabel(s: string)
    ensures IsLabel(ReplaceRuns(s))
    ensures IsLabel(s) ==> ReplaceRuns(s) == s
  {
    if s != [] {
      ReplaceRunsIsLabel(s[1..]);
      assert s == [s[0]] + s[1..];
    }
  }

  function SanitizeName(name: string): string {
    Trim(ReplaceRuns(ToLower(TrimPrefix(name, "/"))), IsHyphen)
  }

  /** A sanitised name has only label characters and no hyphen at either end;
      the names sanitising leaves alone are exactly those. */
  lemma SanitizeNameFixpoints(name: string)
    ensures var r := SanitizeName(name); IsLabel(r) && Trimmed(r, IsHyphen) && SanitizeName(r) == r
    ensures SanitizeName(name) == name <==> IsLabel(name) && Trimmed(name, IsHyphen)
  {
    hide *;
    var r := SanitizeName(name);
    SanitizedForm(name);
    SanitizeKeeps(r);
    if IsLabel(name) && Trimmed(name, IsHyphen) { SanitizeKeeps(name); }
  }

  lemma SanitizedForm(name: string)
    ensures IsLabel(SanitizeName(name)) && Trimmed(SanitizeName(name), IsHyphen)
  {
    var low := ToLower(TrimPrefix(name, "/"));
    var l := ReplaceRuns(low);
    ReplaceRunsIsLabel(low);
    TrimIsTrimmed(l, IsHyphen);
    forall i | 0 <= i < |SanitizeName(name)| ensures LabelChar(SanitizeName(name)[i]) {
      assert SanitizeName(name)[i] in l;
    }
  }

  lemma SanitizeKeeps(r: string)
    requires IsLabel(r) && Trimmed(r, IsHyphen)
    ensures SanitizeName(r) == r
  {
    assert r != "" ==> r[..1][0] == r[0] && LabelChar(r[0]);
    assert !HasPrefix(r, "/");
    assert IsLower(r) by {
      forall i | 0 <= i < |r| ensures !('A' <= r[i] <= 'Z') { assert LabelChar(r[i]); }
    }
    ToLowerIsLower(r);
    ReplaceRunsIsLabel(r);
    TrimIsTrimmed(r, IsHyphen);
  }

  /** strings.Contains(s, "--") */
  predicate HasPair(s: string) {
    exists i :: 0 <= i < |s| - 1 && s[i] == '-' && s[i + 1] == '-'
  }

  /** strings.ReplaceAll(s, "--", "-"): one left-to-right pass over non-overlapping pairs. */
  function ReplacePairs(s: string): string {
    if |s| < 2 then s
    else if s[0] == '-' && s[1] == '-' then ['-'] + ReplacePairs(s[2..])
    else [s[0]] + ReplacePairs(s[1..])
  }

  /** Each run of hyphens becomes a single one. */
  function Collapse(s: string): string {
    if s == [] then []
    else if |s| > 1 && s[0] == '-' && s[1] == '-' then Collapse(s[1..])
    else [s[0]] + Collapse(s[1..])
  }

  lemma {:induction false} CollapseForm(s: string)
    ensures !HasPair(Collapse(s))
    ensures !HasPair(s) ==> Collapse(s) == s
    ensures IsLabel(s) ==> IsLabel(Collapse(s))
    ensures s == [] <==> Collapse(s) == []
    ensures s != [] ==> Collapse(s)[0] == s[0] && Collapse(s)[|Collapse(s)| - 1] == s[|s| - 1]
  {
    if s != [] {
      CollapseForm(s[1..]);
      assert s == [s[0]] + s[1..];
      var t := Collapse(s[1..]);
      if !HasPair(s) {
        forall i | 0 <= i < |s[1..]| - 1 ensures !(s[1..][i] == '-' && s[1..][i + 1] == '-') {
          assert s[1..][i] == s[i + 1] && s[1..][i + 1] == s[i + 2];
        }
      }
      if IsLabel(s) {
        assert IsLabel(s[1..]);
      }
      if !(|s| > 1 && s[0] == '-' && s[1] == '-') {
        var r := [s[0]] + t;
        forall i | 0 <= i < |r| - 1 ensures !(r[i] == '-' && r[i + 1] == '-') {
          if i > 0 { assert r[i] == t[i - 1] && r[i + 1] == t[i]; }
        }
      }
    }
  }

  lemma {:induction false} ReplacePairsForm(s: string)
    ensures |ReplacePairs(s)| <= |s|
    ensures HasPair(s) ==> |ReplacePairs(s)| < |s|
    ensures s == [] <==> ReplacePairs(s) == []
    ensures s != [] ==> ReplacePairs(s)[0] == s[0]
    ensures Collapse(ReplacePairs(s)) == Collapse(s)
  {
    if |s| >= 2 {
      if s[0] == '-' && s[1] == '-' {
        var rest := s[2..];
        ReplacePairsForm(rest);
        var x := ReplacePairs(rest);
        assert s[1..] == ['-'] + rest;
        assert (['-'] + x)[1..] == x;
        assert (['-'] + rest)[1..] == rest;
        assert Collapse(s) == Collapse(['-'] + rest);
      } else {
        ReplacePairsForm(s[1..]);
        var x := ReplacePairs(s[1..]);
        assert ([s[0]] + x)[1..] == x;
        if HasPair(s) {
          var i :| 0 <= i < |s| - 1 && s[i] == '-' && s[i + 1] == '-';
          assert s[1..][i - 1] == '-' && s[1..][i] == '-';
          assert HasPair(s[1..]);
        }
      }
    }
  }

  function NormalizedName(name: string): string {
    Trim(Collapse(SanitizeName(name)), IsHyphen)
  }

  /** normalizeExposureName: the loop ends, having collapsed every run of hyphens. */
  method NormalizeExposureName(input: string) returns (name: string)
    ensures name == NormalizedName(input)
  {
    name := SanitizeName(input);
    while HasPair(name)
      invariant Collapse(name) == Collapse(SanitizeName(input))
      decreases |name|
    {
      ReplacePairsForm(name);
      name := ReplacePairs(name);
    }
    CollapseForm(name);
    name := Trim(name, IsHyphen);
  }

  /** The names an exposure can carry. */
  predicate IsExposureName(n: string) {
    n != "" && IsLabel(n) && Trimmed(n, IsHyphen) && !HasPair(n)
  }

  lemma NormalizedNameFixpoints(name: string)
    ensures NormalizedName(name) == "" || IsExposureName(NormalizedName(name))
    ensures NormalizedName(NormalizedName(name)) == NormalizedName(name)
    ensures NormalizedName(name) == name <==> name == "" || IsExposureName(name)
  {
    hide *;
    NormalizedForm(name);
    NormalizedKeeps(NormalizedName(name));
    if name == "" || IsExposureName(name) { NormalizedKeeps(name); }
  }

  lemma NormalizedForm(name: string)
    ensures NormalizedName(name) == Collapse(SanitizeName(name))
    ensures NormalizedName(name) == "" || IsExposureName(NormalizedName(name))
  {
    var s := SanitizeName(name);
    SanitizedForm(name);
    CollapseForm(s);
    TrimIsTrimmed(Collapse(s), IsHyphen);
  }

  lemma NormalizedKeeps(n: string)
    requires n == "" || IsExposureName(n)
    ensures NormalizedName(n) == n
  {
    assert Trimmed(n, IsHyphen);
    SanitizeKeeps(n);
    CollapseForm(n);
    TrimIsTrimmed(n, IsHyphen);
  }

  function Digit(d: nat): char
    requires d < 10
  {
    '0' + (d as char)
  }

  /** strconv.Itoa on a port. */
  function Itoa(n: nat): string {
    if n < 10 then [Digit(n)] else Itoa(n / 10) + [Digit(n % 10)]
  }

  lemma {:induction false} ItoaDigits(n: nat)
    ensures Itoa(n) != [] && forall i :: 0 <= i < |Itoa(n)| ==> '0' <= Itoa(n)[i] <= '9'
  {
    if n >= 10 { ItoaDigits(n / 10); }
  }

  /** The fallback name is itself normalised, so it can be deleted by the name it is listed under. */
  lemma DefaultNameIsNormal(port: nat)
    ensures IsExposureName(Itoa(port)) && NormalizedName(Itoa(port)) == Itoa(port)
  {
    ItoaDigits(port);
    NormalizedKeeps(Itoa(port));
  }

  /** handleUpsertExposure's label for an exposure n of an environment called env. */
  function HostLabel(env: string, n: string): string {
    env + "--" + n
  }

  /** strings.LastIndex(s, "--") */
  function LastDelimiter(s: string): (r: int)
    ensures -1 <= r
    ensures r >= 0 ==> r + 2 <= |s| && s[r] == '-' && s[r + 1] == '-'
    ensures forall i :: r < i && 0 <= i < |s| - 1 ==> !(s[i] == '-' && s[i + 1] == '-')
  {
    if |s| < 2 then -1
    else if s[|s| - 2] == '-' && s[|s| - 1] == '-' then |s| - 2
    else LastDelimiter(s[..|s| - 1])
  }

  predicate PairAt(s: string, i: int) {
    0 <= i < |s| - 1 && s[i] == '-' && s[i + 1] == '-'
  }

  lemma PairsOfLabel(env: string, n: string)
    ensures PairAt(HostLabel(env, n), |env|)
    ensures PairAt(HostLabel(env, n), |env| + 1) <==> n != "" && n[0] == '-'
    ensures forall i :: 0 <= i ==> (PairAt(HostLabel(env, n), |env| + 2 + i) <==> PairAt(n, i))
  {
    var s := HostLabel(env, n);
    assert s[..|env| + 2] == env + "--";
    assert s[|env| + 2..] == n;
    forall i | 0 <= i < |n| ensures s[|env| + 2 + i] == n[i] {
      assert s[|env| + 2 + i] == s[|env| + 2..][i];
    }
  }

  /** The last delimiter is the join exactly when the name neither contains a pair nor opens with a hyphen. */
  lemma DelimiterAtJoin(env: string, n: string)
    ensures LastDelimiter(HostLabel(env, n)) == |env| <==> !HasPair(n) && (n == "" || n[0] != '-')
  {
    PairsOfLabel(env, n);
    var s := HostLabel(env, n);
    var d := LastDelimiter(s);
    assert PairAt(s, d) && forall i :: d < i ==> !PairAt(s, i);
    if d > |env| + 1 {
      assert PairAt(s, |env| + 2 + (d - |env| - 2));
    }
    if HasPair(n) {
      var i :| 0 <= i < |n| - 1 && n[i] == '-' && n[i + 1] == '-';
      assert PairAt(n, i);
    }
  }

  /** Labels decode uniquely: no two (environment name, exposure name) pairs share one. */
  lemma LabelsDecode(env: string, n: string, env': string, n': string)
    requires IsExposureName(n) && IsExposureName(n')
    requires HostLabel(env, n) == HostLabel(env', n')
    ensures env == env' && n == n'
  {
    DelimiterAtJoin(env, n);
    DelimiterAtJoin(env', n');
    var s := HostLabel(env, n);
    assert s[..|env|] == env && s[|env| + 2..] == n;
    assert s[..|env'|] == env' && s[|env'| + 2..] == n';
  }
}
