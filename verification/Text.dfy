/** Strings as the relay and the importer use them: trimming, prefixes, splitting and joining. */
module Text {

  predicate HasPrefix(s: string, p: string) {
    |p| <= |s| && s[..|p|] == p
  }

  predicate HasSuffix(s: string, x: string) {
    |x| <= |s| && s[|s| - |x|..] == x
  }

  function TrimPrefix(s: string, p: string): string {
    if HasPrefix(s, p) then s[|p|..] else s
  }

  function TrimSuffix(s: string, x: string): string {
    if HasSuffix(s, x) then s[..|s| - |x|] else s
  }

  /** The white space that Go's unicode.IsSpace accepts. */
  predicate IsSpace(c: char) {
    '\t' <= c <= '\r' || c == ' ' || c == '\U{0085}' || c == '\U{00A0}' || c == '\U{1680}'
    || '\U{2000}' <= c <= '\U{200A}' || '\U{2028}' <= c <= '\U{2029}'
    || c == '\U{202F}' || c == '\U{205F}' || c == '\U{3000}'
  }

  predicate IsHyphen(c: char) {
    c == '-'
  }

  predicate IsSlash(c: char) {
    c == '/'
  }

  /** The first position from i on whose character does not satisfy p. */
  function Leading(s: string, p: char -> bool, i: nat): (k: nat)
    requires i <= |s|
    ensures i <= k <= |s|
    ensures forall j :: i <= j < k ==> p(s[j])
    ensures k < |s| ==> !p(s[k])
    decreases |s| - i
  {
    if i < |s| && p(s[i]) then Leading(s, p, i + 1) else i
  }

  /** The end of the shortest prefix of s[..i] after which every character up to i satisfies p. */
  function Trailing(s: string, p: char -> bool, i: nat): (k: nat)
    requires i <= |s|
    ensures k <= i
    ensures forall j :: k <= j < i ==> p(s[j])
    ensures k > 0 ==> !p(s[k - 1])
  {
    if i > 0 && p(s[i - 1]) then Trailing(s, p, i - 1) else i
  }

  /** Drops the longest prefix whose characters all satisfy p. */
  function TrimLeft(s: string, p: char -> bool): string {
    s[Leading(s, p, 0)..]
  }

  /** Drops the longest suffix whose characters all satisfy p. */
  function TrimRight(s: string, p: char -> bool): string {
    s[..Trailing(s, p, |s|)]
  }

  function Trim(s: string, p: char -> bool): string {
    TrimRight(TrimLeft(s, p), p)
  }

  /** No character at either end satisfies p. */
  predicate Trimmed(s: string, p: char -> bool) {
    s != [] ==> !p(s[0]) && !p(s[|s| - 1])
  }

  lemma TrimIsTrimmed(s: string, p: char -> bool)
    ensures Trimmed(Trim(s, p), p)
    ensures Trimmed(s, p) ==> Trim(s, p) == s
    ensures forall i :: 0 <= i < |Trim(s, p)| ==> Trim(s, p)[i] in s
  {
    var l := TrimLeft(s, p);
    var r := TrimRight(l, p);
    assert r != [] ==> r[0] == l[0] == s[|s| - |l|] && r[|r| - 1] == l[|r| - 1];
    if Trimmed(s, p) && s != [] {
      assert Leading(s, p, 0) == 0 && l == s;
      assert Trailing(s, p, |s|) == |s| && r == s;
    }
    forall i | 0 <= i < |r| ensures r[i] in s {
      assert r[i] == l[i] == s[|s| - |l| + i];
    }
  }

  /** Trimming takes away exactly what satisfies p at both ends. */
  lemma TrimMiddle(a: string, m: string, b: string, p: char -> bool)
    requires (forall i :: 0 <= i < |a| ==> p(a[i])) && (forall i :: 0 <= i < |b| ==> p(b[i])) && Trimmed(m, p)
    ensures Trim(a + m + b, p) == m
  {
    var s := a + m + b;
    var l := TrimLeft(s, p);
    if m == [] {
      assert Leading(s, p, 0) == |s|;
    } else {
      assert s[|a|] == m[0] && Leading(s, p, 0) == |a|;
      assert l == m + b;
      assert l[|m| - 1] == m[|m| - 1] && Trailing(l, p, |l|) == |m|;
    }
  }

  lemma TrimParts(s: string, p: char -> bool) returns (a: string, b: string)
    ensures s == a + Trim(s, p) + b
    ensures (forall i :: 0 <= i < |a| ==> p(a[i])) && (forall i :: 0 <= i < |b| ==> p(b[i]))
  {
    var k := Leading(s, p, 0);
    var l := s[k..];
    var e := Trailing(l, p, |l|);
    a, b := s[..k], l[e..];
  }

  /** What satisfies p at the ends does not matter to trimming. */
  lemma TrimSkips(a: string, m: string, b: string, p: char -> bool)
    requires (forall i :: 0 <= i < |a| ==> p(a[i])) && (forall i :: 0 <= i < |b| ==> p(b[i]))
    ensures Trim(a + m + b, p) == Trim(m, p)
  {
    hide Trim;
    var x, y := TrimParts(m, p);
    var t := Trim(m, p);
    assert a + m + b == (a + x) + t + (y + b);
    TrimIsTrimmed(m, p);
    TrimMiddle(a + x, t, y + b, p);
  }

  lemma TrimShrinks(s: string, p: char -> bool)
    ensures |Trim(s, p)| <= |s|
    ensures |Trim(s, p)| == |s| ==> Trim(s, p) == s
  {
  }

  function LowerChar(c: char): char {
    if 'A' <= c <= 'Z' then c - 'A' + 'a' else c
  }

  function ToLower(s: string): (r: string)
    ensures |r| == |s|
    ensures forall i :: 0 <= i < |s| ==> r[i] == LowerChar(s[i])
  {
    seq(|s|, i requires 0 <= i < |s| => LowerChar(s[i]))
  }

  predicate IsLower(s: string) {
    forall i :: 0 <= i < |s| ==> !('A' <= s[i] <= 'Z')
  }

  lemma ToLowerIsLower(s: string)
    ensures IsLower(ToLower(s))
    ensures IsLower(s) ==> ToLower(s) == s
    ensures ToLower(s) == s ==> IsLower(s)
  {
    if ToLower(s) == s {
      forall i | 0 <= i < |s| ensures !('A' <= s[i] <= 'Z') {
        assert s[i] == LowerChar(s[i]);
      }
    }
  }

  lemma LowerParts(a: string, b: string)
    ensures IsLower(a + b) <==> IsLower(a) && IsLower(b)
  {
    if IsLower(a + b) {
      assert forall i :: 0 <= i < |a| ==> (a + b)[i] == a[i];
      LowerSlice(a + b, |a|, |a + b|);
      assert (a + b)[|a|..|a + b|] == b;
    }
  }

  lemma LowerSlice(s: string, i: nat, j: nat)
    requires i <= j <= |s| && IsLower(s)
    ensures IsLower(s[i..j])
  {
  }

  lemma Regroup(a: string, b: string, c: string)
    ensures a + "." + (b + "." + c) == (a + "." + b) + ("." + c)
  {
  }

  /** strings.Split for a one-character separator: always at least one part. */
  function Split(s: string, c: char): (r: seq<string>)
    ensures |r| >= 1
  {
    if s == [] then [[]]
    else SplitCons(s[0], Split(s[1..], c), c)
  }

  function Join(parts: seq<string>, c: char): string {
    if |parts| == 0 then []
    else if |parts| == 1 then parts[0]
    else parts[0] + [c] + Join(parts[1..], c)
  }

  lemma {:induction false} JoinSplit(s: string, c: char)
    ensures Join(Split(s, c), c) == s
  {
    if s != [] {
      JoinSplit(s[1..], c);
      var t := Split(s[1..], c);
      if s[0] == c {
        assert Split(s, c)[1..] == t;
      } else {
        assert Split(s, c)[1..] == t[1..];
      }
      assert s == [s[0]] + s[1..];
    }
  }

  /** How splitting proceeds past the first character. */
  function SplitCons(ch: char, rest: seq<string>, c: char): seq<string>
    requires rest != []
  {
    if ch == c then [[]] + rest else [[ch] + rest[0]] + rest[1..]
  }

  lemma SplitConsAppend(ch: char, t: seq<string>, u: seq<string>, c: char)
    requires t != []
    ensures SplitCons(ch, t + u, c) == SplitCons(ch, t, c) + u
  {
    assert (t + u)[1..] == t[1..] + u;
  }

  lemma {:induction false} SplitAppend(a: string, b: string, c: char)
    ensures Split(a + [c] + b, c) == Split(a, c) + Split(b, c)
  {
    if a == [] {
      assert a + [c] + b == [c] + b;
      assert ([c] + b)[1..] == b;
    } else {
      var s := a + [c] + b;
      assert s[0] == a[0] && s[1..] == a[1..] + [c] + b;
      SplitAppend(a[1..], b, c);
      SplitConsAppend(a[0], Split(a[1..], c), Split(b, c), c);
      assert Split(s, c) == SplitCons(s[0], Split(s[1..], c), c);
      assert Split(a, c) == SplitCons(a[0], Split(a[1..], c), c);
    }
  }

  lemma {:induction false} SplitWhole(s: string, c: char)
    requires c !in s
    ensures Split(s, c) == [s]
  {
    if s != [] {
      SplitWhole(s[1..], c);
      assert s == [s[0]] + s[1..];
    }
  }

  lemma {:induction false} SplitJoin(parts: seq<string>, c: char)
    requires |parts| >= 1
    requires forall p :: p in parts ==> c !in p
    ensures Split(Join(parts, c), c) == parts
  {
    if |parts| == 1 {
      SplitWhole(parts[0], c);
    } else {
      SplitJoin(parts[1..], c);
      SplitAppend(parts[0], Join(parts[1..], c), c);
      SplitWhole(parts[0], c);
      assert parts == [parts[0]] + parts[1..];
    }
  }

  lemma {:induction false} SplitParts(s: string, c: char)
    ensures forall p :: p in Split(s, c) ==> c !in p
  {
    if s != [] {
      SplitParts(s[1..], c);
    }
  }

  lemma {:induction false} JoinAppend(a: seq<string>, b: seq<string>, c: char)
    requires a != [] && b != []
    ensures Join(a + b, c) == Join(a, c) + [c] + Join(b, c)
  {
    if |a| == 1 {
      assert (a + b)[1..] == b;
    } else {
      JoinAppend(a[1..], b, c);
      assert (a + b)[1..] == a[1..] + b;
    }
  }

  lemma {:induction false} JoinLength(parts: seq<string>, c: char)
    ensures parts != [] ==> |Join(parts, c)| >= |parts| - 1
    ensures forall p :: p in parts ==> |p| <= |Join(parts, c)|
  {
    if |parts| > 1 {
      JoinLength(parts[1..], c);
    }
  }

  /** Lexicographic order, as Go and SQLite compare text. */
  predicate LexLess(a: string, b: string) {
    b != [] && (a == [] || a[0] < b[0] || (a[0] == b[0] && LexLess(a[1..], b[1..])))
  }

  lemma {:induction false} LexTotal(a: string, b: string)
    ensures LexLess(a, b) || a == b || LexLess(b, a)
    ensures !(LexLess(a, b) && LexLess(b, a))
    ensures !LexLess(a, a)
  {
    if a != [] && b != [] {
      LexTotal(a[1..], b[1..]);
      assert a == [a[0]] + a[1..] && b == [b[0]] + b[1..];
    }
    if a != [] {
      LexTotal(a[1..], a[1..]);
    }
  }

  /** a and b agree before place i, where a has the lesser character, or ends and b does not. */
  predicate LessAt(a: string, b: string, i: int) {
    0 <= i <= |a| && i < |b| && a[..i] == b[..i] && (i == |a| || a[i] < b[i])
  }

  lemma LessAtCons(c: char, a: string, b: string, i: nat)
    ensures LessAt([c] + a, [c] + b, i + 1) <==> LessAt(a, b, i)
  {
    if i <= |a| && i < |b| {
      assert ([c] + a)[..i + 1] == [c] + a[..i] && ([c] + b)[..i + 1] == [c] + b[..i];
      assert ([c] + a)[1..][..i] == a[..i] && ([c] + b)[1..][..i] == b[..i];
    }
  }

  /** Where two texts first differ the lesser has the lesser character, or ends. */
  lemma {:induction false} LexLessExact(a: string, b: string)
    ensures LexLess(a, b) <==> exists i :: LessAt(a, b, i)
  {
    hide LessAt;
    if a != [] && b != [] && a[0] == b[0] {
      var c, s, t := a[0], a[1..], b[1..];
      assert a == [c] + s && b == [c] + t;
      LexLessExact(s, t);
      if i :| LessAt(s, t, i) {
        LessAtStart(s, t, i);
        LessAtCons(c, s, t, i);
      }
      if i :| LessAt(a, b, i) {
        LessAtStart(a, b, i);
        LessAtCons(c, s, t, i - 1);
      }
    } else {
      LessAtOnce(a, b);
    }
  }

  lemma LessAtStart(a: string, b: string, i: int)
    requires LessAt(a, b, i)
    ensures i >= 0 && (a != [] && b != [] && a[0] == b[0] ==> i > 0)
  {
  }

  lemma LessAtOnce(a: string, b: string)
    requires a == [] || b == [] || a[0] != b[0]
    ensures LexLess(a, b) <==> LessAt(a, b, 0)
    ensures forall i :: LessAt(a, b, i) ==> i == 0
  {
    if a != [] && b != [] {
      assert forall i :: 0 < i <= |a| && i <= |b| ==> a[..i][0] == a[0] && b[..i][0] == b[0];
    }
  }

  lemma {:induction false} LexTransitive(a: string, b: string, c: string)
    requires LexLess(a, b) && LexLess(b, c)
    ensures LexLess(a, c)
  {
    if a != [] && a[0] == b[0] == c[0] {
      LexTransitive(a[1..], b[1..], c[1..]);
    }
  }
}
