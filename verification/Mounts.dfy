/** Translating paths between the relay's mounts and their sources, and keeping a path inside a root. */
module Mounts {
  import opened Options
  import opened Text
  import opened Paths

  function CleanContainerPath(value: string): string {
    var v := Trim(value, IsSpace);
    if v == "" then "." else Clean(v)
  }

  function WithSlash(path: string): string {
    TrimRight(path, IsSlash) + "/"
  }

  predicate PathHasPrefix(target: string, prefix: string) {
    var t, p := CleanContainerPath(target), CleanContainerPath(prefix);
    t == p || HasPrefix(t, WithSlash(p))
  }

  function RelativeContainerPath(base: string, target: string): string {
    var b, t := CleanContainerPath(base), CleanContainerPath(target);
    if t == b then "" else TrimPrefix(t, WithSlash(b))
  }

  /** White space only ever inside a component: none before a slash or at the end. */
  predicate TidyText(s: string) {
    forall i :: 0 <= i < |s| && IsSpace(s[i]) ==> i + 1 < |s| && s[i + 1] != '/'
  }

  /** An absolute path none of whose components ends in white space. */
  predicate Tidy(s: string) {
    Rooted(s) && TidyText(s)
  }

  predicate EndsTidy(p: string) {
    p != "" ==> !IsSpace(p[|p| - 1])
  }

  /** Components a tidy path can have. */
  predicate TidyParts(parts: seq<string>) {
    AllProper(parts) && forall p :: p in parts ==> EndsTidy(p)
  }

  lemma {:induction false} SplitTidy(s: string)
    requires TidyText(s)
    ensures forall p :: p in Split(s, '/') ==> EndsTidy(p)
    ensures Split(s, '/')[0] == "" <==> s == "" || s[0] == '/'
  {
    if s != "" {
      var rest := s[1..];
      forall i | 0 <= i < |rest| && IsSpace(rest[i]) ensures i + 1 < |rest| && rest[i + 1] != '/' {
        assert rest[i] == s[i + 1];
      }
      SplitTidy(rest);
      if s[0] != '/' {
        var t := Split(rest, '/');
        var first := [s[0]] + t[0];
        assert EndsTidy(first) by {
          if t[0] == "" {
            assert rest == "" || rest[0] == s[1];
          } else {
            assert t[0] in t && first[|first| - 1] == t[0][|t[0]| - 1];
          }
        }
      }
    }
  }

  lemma {:induction false} ReduceFromParts(rooted: bool, stack: seq<string>, parts: seq<string>)
    ensures forall p :: p in Reduce(rooted, stack, parts) ==> p in stack || p in parts
    decreases |parts|
  {
    if parts != [] {
      ReduceFromParts(rooted, Push(rooted, stack, parts[0]), parts[1..]);
    }
  }

  lemma TidyComponents(s: string)
    requires Tidy(s)
    ensures TidyParts(Components(s))
  {
    ComponentsCanonical(s);
    SplitTidy(s);
    ReduceFromParts(true, [], Split(s, '/'));
  }

  lemma AbsEnd(parts: seq<string>)
    requires TidyParts(parts)
    ensures var a := Abs(parts);
            |a| >= 1 && a[0] == '/' && !IsSpace(a[|a| - 1]) && (parts != [] ==> a[|a| - 1] != '/' && |a| > 1)
  {
    if parts != [] {
      var p := parts[|parts| - 1];
      assert p in parts && Proper(p) && EndsTidy(p);
      LastOfJoin(parts);
    }
  }

  lemma {:induction false} LastOfJoin(parts: seq<string>)
    requires parts != [] && parts[|parts| - 1] != ""
    ensures Join(parts, '/') != "" &&
            Join(parts, '/')[|Join(parts, '/')| - 1] == parts[|parts| - 1][|parts[|parts| - 1]| - 1]
  {
    if |parts| > 1 {
      LastOfJoin(parts[1..]);
    }
  }

  /** A tidy path cleans to the absolute path of its components. */
  lemma TidyCleans(s: string)
    requires Tidy(s)
    ensures CleanContainerPath(s) == Abs(Components(s)) && TidyParts(Components(s))
  {
    TidyComponents(s);
    assert !IsSpace(s[|s| - 1]);
    TrimIsTrimmed(s, IsSpace);
  }

  lemma AbsCleans(parts: seq<string>)
    requires TidyParts(parts)
    ensures CleanContainerPath(Abs(parts)) == Abs(parts) && Components(Abs(parts)) == parts
  {
    AbsComponents(parts);
    AbsEnd(parts);
    TrimIsTrimmed(Abs(parts), IsSpace);
  }

  lemma StableWhenTrimmed(value: string)
    ensures CleanContainerPath(CleanContainerPath(value)) == CleanContainerPath(value)
            <==> Trimmed(CleanContainerPath(value), IsSpace)
  {
    var c := CleanContainerPath(value);
    var v := Trim(value, IsSpace);
    TrimIsTrimmed(c, IsSpace);
    if v == "" {
      assert c == ".";
      DotCleans();
    } else {
      CleanIdempotent(v);
      if !Trimmed(c, IsSpace) {
        TrimShrinks(c, IsSpace);
        CleanShrinks(Trim(c, IsSpace));
        assert Trim(c, IsSpace) != c;
        assert |c| == 1 ==> Trim(c, IsSpace) == "";
      } else {
        assert c != "" by { CleanNonEmpty(v); }
      }
    }
  }

  /** Cleaning uncovers white space: that of the last component left, or, in a relative path, of the first. */
  predicate Uncovers(v: string) {
    var parts := Components(v);
    parts != [] &&
    var first, last := parts[0], parts[|parts| - 1];
    (last != "" && IsSpace(last[|last| - 1])) || (!Rooted(v) && first != "" && IsSpace(first[0]))
  }

  /** Trimming comes before cleaning, so cleaning again can trim more: the function is idempotent at a value
      exactly when cleaning the trimmed value uncovers no white space. */
  lemma CleanContainerPathStable(value: string)
    ensures CleanContainerPath(CleanContainerPath(value)) == CleanContainerPath(value)
            <==> !Uncovers(Trim(value, IsSpace))
  {
    hide Components, CleanContainerPath, Leading, Trailing;
    StableWhenTrimmed(value);
    var v := Trim(value, IsSpace);
    CleanedOf(value);
    if v == "" {
      EmptyParts();
    } else {
      RenderedEnds(v);
    }
  }

  lemma CleanedOf(value: string)
    ensures CleanContainerPath(value) == if Trim(value, IsSpace) == "" then "." else Clean(Trim(value, IsSpace))
  {
  }

  lemma EmptyParts()
    ensures Components("") == [] && Trimmed(".", IsSpace)
  {
    SplitWhole("", '/');
  }

  /** The ends of a cleaned path are those of its outer components, or the root's slash. */
  lemma RenderedEnds(v: string)
    ensures Trimmed(Clean(v), IsSpace) <==> !Uncovers(v)
  {
    hide Components, IsSpace;
    var parts := Components(v);
    ComponentsCanonical(v);
    assert !IsSpace('/') && !IsSpace('.') by { SlashIsNoSpace(); }
    if parts != [] {
      PartsNotEmpty(v);
      var first, last := parts[0], parts[|parts| - 1];
      LastOfJoin(parts);
      FirstOfJoin(parts);
    }
  }

  lemma SlashIsNoSpace()
    ensures !IsSpace('/') && !IsSpace('.')
  {
  }

  lemma PartsNotEmpty(v: string)
    ensures forall i :: 0 <= i < |Components(v)| ==> Components(v)[i] != ""
  {
    hide Components;
    ComponentsCanonical(v);
    var k :| 0 <= k <= |Components(v)| && UpThenProper(Rooted(v), Components(v), k);
  }

  lemma FirstOfJoin(parts: seq<string>)
    requires parts != [] && parts[0] != ""
    ensures Join(parts, '/') != "" && Join(parts, '/')[0] == parts[0][0]
  {
  }

  lemma TrimmedExamples()
    ensures Trim("/a /", IsSpace) == "/a /" && Trim("/a ", IsSpace) == "/a"
  {
    TrimIsTrimmed("/a /", IsSpace);
    assert Leading("/a ", IsSpace, 0) == 0 && Trailing("/a ", IsSpace, 3) == 2;
    assert "/a "[0..] == "/a " && "/a "[..2] == "/a";
  }

  lemma JoinedExamples()
    ensures Join(["", "a ", ""], '/') == "/a /" && Join(["", "a"], '/') == "/a"
  {
    assert ["", "a ", ""][1..] == ["a ", ""] && ["a ", ""][1..] == [""];
    assert ["", "a"][1..] == ["a"];
  }

  lemma AbsExample(p: string)
    ensures Abs([p]) == "/" + p
  {
  }

  /** At "/a /", for one, it is not: the first cleaning leaves "/a ", the second "/a". */
  lemma TrailingSlashUncovers()
    ensures CleanContainerPath("/a /") == "/a " && CleanContainerPath("/a ") == "/a"
  {
    hide Trim, Join, Clean, Abs, IsSpace, Split;
    TrimmedExamples();
    JoinedExamples();
    assert Proper("a ") && Proper("a");
    CleanOfJoin(["", "a ", ""], ["a "]);
    CleanOfJoin(["", "a"], ["a"]);
    AbsExample("a ");
    AbsExample("a");
  }

  lemma CleanOfJoin(parts: seq<string>, proper: seq<string>)
    requires |parts| > 1 && parts[0] == "" && AllProper(proper) &&
             (parts == [""] + proper || parts == [""] + proper + [""])
    ensures Clean(Join(parts, '/')) == Abs(proper)
  {
    assert forall p :: p in parts ==> '/' !in p;
    SplitJoin(parts, '/');
    assert Join(parts, '/')[0] == '/';
    ReduceProper(true, [], proper);
    ReduceAppend(true, [], [""], parts[1..]);
    assert parts == [""] + parts[1..];
    if parts == [""] + proper + [""] {
      assert parts[1..] == proper + [""];
      ReduceAppend(true, [], proper, [""]);
    } else {
      assert parts[1..] == proper;
    }
    assert [] + proper == proper;
  }

  lemma DotCleans()
    ensures CleanContainerPath(".") == "."
  {
    TrimIsTrimmed(".", IsSpace);
    SplitWhole(".", '/');
  }

  lemma CleanNonEmpty(s: string)
    ensures Clean(s) != ""
  {
    ComponentsCanonical(s);
    SplitRendered(Rooted(s), Components(s));
    var k :| 0 <= k <= |Components(s)| && UpThenProper(Rooted(s), Components(s), k);
    if Components(s) != [] { JoinLength(Components(s), '/'); assert Components(s)[0] in Components(s); }
  }

  /** The length of the joined list: every component and the slashes between. */
  function Width(parts: seq<string>): nat {
    if parts == [] then 0 else |parts[|parts| - 1]| + 1 + Width(parts[..|parts| - 1])
  }

  lemma {:induction false} WidthAppend(a: seq<string>, b: seq<string>)
    ensures Width(a + b) == Width(a) + Width(b)
  {
    if b == [] {
      assert a + b == a;
    } else {
      assert (a + b)[..|a + b| - 1] == a + b[..|b| - 1];
      WidthAppend(a, b[..|b| - 1]);
    }
  }

  lemma {:induction false} JoinWidth(parts: seq<string>)
    requires parts != []
    ensures |Join(parts, '/')| + 1 == Width(parts)
  {
    if |parts| > 1 {
      JoinWidth(parts[1..]);
      WidthAppend([parts[0]], parts[1..]);
      assert [parts[0]] + parts[1..] == parts;
      assert [parts[0]][..0] == [];
    }
  }

  lemma {:induction false} ReduceWidth(rooted: bool, stack: seq<string>, parts: seq<string>)
    ensures Width(Reduce(rooted, stack, parts)) <= Width(stack) + Width(parts)
    decreases |parts|
  {
    if parts != [] {
      WidthAppend([parts[0]], parts[1..]);
      assert [parts[0]] + parts[1..] == parts && [parts[0]][..0] == [];
      var next := Push(rooted, stack, parts[0]);
      assert (stack + [parts[0]])[..|stack|] == stack;
      ReduceWidth(rooted, next, parts[1..]);
    }
  }

  lemma CleanShrinks(s: string)
    ensures s != "" ==> |Clean(s)| <= |s|
    ensures s == "" ==> Clean(s) == "."
  {
    var parts := Split(s, '/');
    JoinSplit(s, '/');
    if s != "" {
      JoinWidth(parts);
      if Rooted(s) {
        assert s == [] + ['/'] + s[1..];
        SplitAppend([], s[1..], '/');
        assert parts[0] == "" && parts[1..] == Split(s[1..], '/');
        assert Reduce(true, [], parts) == Reduce(true, [], parts[1..]);
        ReduceWidth(true, [], parts[1..]);
        WidthAppend([parts[0]], parts[1..]);
        assert [parts[0]] + parts[1..] == parts && [parts[0]][..0] == [];
      } else {
        ReduceWidth(false, [], parts);
      }
      if Components(s) != [] { JoinWidth(Components(s)); }
    }
  }

  // ----- the prefix test and the relative path -----

  lemma AbsAppend(a: seq<string>, b: seq<string>)
    requires b != []
    ensures a != [] ==> Abs(a + b) == Abs(a) + "/" + Join(b, '/')
    ensures a == [] ==> Abs(a + b) == "/" + Join(b, '/')
  {
    if a == [] {
      assert a + b == b;
    } else {
      JoinAppend(a, b, '/');
    }
  }

  lemma AbsWithSlash(parts: seq<string>)
    requires TidyParts(parts)
    ensures WithSlash(Abs(parts)) == if parts == [] then "/" else Abs(parts) + "/"
  {
    AbsEnd(parts);
    var a := Abs(parts);
    if parts == [] {
      assert Trailing("/", IsSlash, 1) == 0;
    } else {
      assert Trailing(a, IsSlash, |a|) == |a|;
    }
  }

  /** An absolute path that continues another one has its components and more. */
  lemma ContinuedParts(t: seq<string>, p: seq<string>, rest: string)
    requires TidyParts(t) && TidyParts(p) && p != [] && Abs(t) == Abs(p) + ['/'] + rest
    ensures p < t
  {
    hide EndsTidy, Abs, Split, Proper;
    AbsEnd(p);
    RootIsShort();
    SplitAppend(Abs(p), rest, '/');
    SplitAbs(t);
    SplitAbs(p);
    var more := Split(rest, '/');
    assert [""] + t == [""] + p + more;
    assert t == ([""] + t)[1..] && ([""] + p + more)[1..] == p + more;
  }

  lemma SplitAbs(parts: seq<string>)
    requires TidyParts(parts) && parts != []
    ensures Split(Abs(parts), '/') == [""] + parts
  {
    hide EndsTidy, Split;
    assert UpThenProper(true, parts, 0);
    SplitRendered(true, parts);
  }

  lemma RootIsShort()
    ensures |Abs([])| == 1
  {
  }

  lemma AbsPrefix(t: seq<string>, p: seq<string>)
    requires TidyParts(t) && TidyParts(p)
    ensures HasPrefix(Abs(t), WithSlash(Abs(p))) <==> p < t || p == []
    ensures p < t ==> Abs(t) == WithSlash(Abs(p)) + Join(t[|p|..], '/')
  {
    hide TidyParts, WithSlash, Join;
    AbsWithSlash(p);
    if p < t {
      assert t == p + t[|p|..];
      AbsAppend(p, t[|p|..]);
    }
    if p != [] && HasPrefix(Abs(t), Abs(p) + "/") {
      var rest := Abs(t)[|Abs(p)| + 1..];
      assert Abs(t) == Abs(p) + ['/'] + rest;
      ContinuedParts(t, p, rest);
    }
  }

  /** On tidy paths the string test is the test on component lists. */
  lemma PathHasPrefixExact(target: string, prefix: string)
    requires Tidy(target) && Tidy(prefix)
    ensures PathHasPrefix(target, prefix) <==> Components(prefix) <= Components(target)
  {
    TidyCleans(target);
    TidyCleans(prefix);
    var t, p := Components(target), Components(prefix);
    AbsPrefix(t, p);
    AbsEqual(t, p);
  }

  /** The relative path of a tidy target under a tidy base is what follows the base's components. */
  lemma RelativeExact(base: string, target: string)
    requires Tidy(base) && Tidy(target) && Components(base) <= Components(target)
    ensures var rest := Components(target)[|Components(base)|..];
            RelativeContainerPath(base, target) == (if rest == [] then "" else Join(rest, '/'))
  {
    TidyCleans(base);
    TidyCleans(target);
    var b, t := Components(base), Components(target);
    AbsPrefix(t, b);
    AbsEqual(t, b);
    if b == t {
      assert t[|b|..] == [];
    } else {
      assert b < t;
      var w, j := WithSlash(Abs(b)), Join(t[|b|..], '/');
      assert Abs(t) == w + j;
      assert (w + j)[..|w|] == w && (w + j)[|w|..] == j;
    }
  }

  lemma RebasedParts(base: seq<string>, rest: seq<string>)
    requires TidyParts(base) && AllProper(rest)
    ensures Rebased(Abs(base), if rest == [] then "" else Join(rest, '/')) == Abs(base + rest)
  {
    hide EndsTidy, IsSpace, Reduce, Split;
    if rest == [] {
      assert base + rest == base;
    } else {
      JoinLength(rest, '/');
      assert rest[0] in rest && Proper(rest[0]);
      AbsEnd(base);
      AbsComponents(base);
      ComponentsAppend(Abs(base), rest);
    }
  }

  /** Joining a base with what RelativeContainerPath answers gives back the target; joining another base
      swaps the target's leading components for it. */
  lemma RebaseGivesTarget(base: string, target: string, newBase: seq<string>)
    requires Tidy(base) && Tidy(target) && Components(base) <= Components(target) && TidyParts(newBase)
    ensures Rebased(Abs(newBase), RelativeContainerPath(base, target))
            == Abs(newBase + Components(target)[|Components(base)|..])
    ensures newBase == Components(base) ==>
              Rebased(Abs(newBase), RelativeContainerPath(base, target)) == CleanContainerPath(target)
  {
    hide RelativeContainerPath, CleanContainerPath, Components, EndsTidy, Tidy, Proper, Rebased, Abs;
    var rest := Components(target)[|Components(base)|..];
    RelativeExact(base, target);
    TidyCleans(target);
    RebasedParts(newBase, rest);
    assert Components(base) + rest == Components(target);
  }

  /** What both translations do with the relative path. */
  function Rebased(base: string, relative: string): string {
    if relative == "" then base else JoinTwo(base, relative)
  }

  // ----- choosing a mount -----

  datatype Mount = Mount(source: string, destination: string, rw: bool)

  datatype Side = Source | Destination

  function Other(side: Side): Side {
    if side == Source then Destination else Source
  }

  function At(side: Side, m: Mount): string {
    if side == Source then m.source else m.destination
  }

  function KeyAt(side: Side, m: Mount): string {
    CleanContainerPath(At(side, m))
  }

  predicate Fits(side: Side, m: Mount, path: string) {
    (side == Source ==> KeyAt(side, m) != ".") && PathHasPrefix(CleanContainerPath(path), KeyAt(side, m))
  }

  /** The mount with the longest cleaned path that fits, the first of them if there are several. */
  function Best(side: Side, ms: seq<Mount>, path: string): Option<Mount> {
    if ms == [] then None
    else
      var m := ms[|ms| - 1];
      var best := Best(side, ms[..|ms| - 1], path);
      if Fits(side, m, path) && (best.None? || |KeyAt(side, m)| > |KeyAt(side, best.value)|) then Some(m) else best
  }

  method BestMountByDestination(mounts: seq<Mount>, containerPath: string) returns (best: Option<Mount>)
    ensures best == Best(Destination, mounts, containerPath)
  {
    hide CleanContainerPath, PathHasPrefix;
    var path := CleanContainerPath(containerPath);
    best := None;
    var bestLen := -1;
    for i := 0 to |mounts|
      invariant best == Best(Destination, mounts[..i], containerPath)
      invariant bestLen == if best.None? then -1 else |KeyAt(Destination, best.value)|
    {
      assert mounts[..i + 1][..i] == mounts[..i];
      var destination := CleanContainerPath(mounts[i].destination);
      if PathHasPrefix(path, destination) && |destination| > bestLen {
        best, bestLen := Some(mounts[i]), |destination|;
      }
    }
    assert mounts[..|mounts|] == mounts;
  }

  method BestMountBySource(mounts: seq<Mount>, sourcePath: string) returns (best: Option<Mount>)
    ensures best == Best(Source, mounts, sourcePath)
  {
    hide CleanContainerPath, PathHasPrefix;
    var path := CleanContainerPath(sourcePath);
    best := None;
    var bestLen := -1;
    for i := 0 to |mounts|
      invariant best == Best(Source, mounts[..i], sourcePath)
      invariant bestLen == if best.None? then -1 else |KeyAt(Source, best.value)|
    {
      assert mounts[..i + 1][..i] == mounts[..i];
      var source := CleanContainerPath(mounts[i].source);
      if source != "." && PathHasPrefix(path, source) && |source| > bestLen {
        best, bestLen := Some(mounts[i]), |source|;
      }
    }
    assert mounts[..|mounts|] == mounts;
  }

  lemma {:induction false} BestIsLongest(side: Side, ms: seq<Mount>, path: string)
    ensures var b := Best(side, ms, path);
            && (b.None? <==> forall m :: m in ms ==> !Fits(side, m, path))
            && (b.Some? ==> b.value in ms && Fits(side, b.value, path))
            && (b.Some? ==> forall m :: m in ms && Fits(side, m, path) ==> |KeyAt(side, m)| <= |KeyAt(side, b.value)|)
  {
    hide Fits, KeyAt;
    if ms != [] {
      var init, last := ms[..|ms| - 1], ms[|ms| - 1];
      BestIsLongest(side, init, path);
      assert ms == init + [last];
      assert forall m :: m in ms <==> m in init || m == last;
      assert last in ms;
    }
  }

  /** Mounts in memory, for one, have no source on the host. */
  predicate HasSource(m: Mount) {
    Trim(m.source, IsSpace) != ""
  }

  /** Mounts that can be chosen on a side. */
  predicate Eligible(side: Side, m: Mount) {
    side == Source ==> HasSource(m)
  }

  predicate TidyMounts(ms: seq<Mount>) {
    forall m :: m in ms ==> Tidy(m.destination) && (HasSource(m) ==> Tidy(m.source))
  }

  lemma TidyHasSource(m: Mount)
    requires Tidy(m.source)
    ensures HasSource(m)
  {
    TrimIsTrimmed(m.source, IsSpace);
    assert !IsSpace(m.source[|m.source| - 1]);
  }

  lemma Unfit(side: Side, m: Mount, path: string)
    requires !Eligible(side, m)
    ensures !Fits(side, m, path)
  {
  }

  lemma FitsEligible(side: Side, m: Mount, path: string)
    requires Fits(side, m, path)
    ensures Eligible(side, m)
  {
  }

  lemma EligibleTidy(side: Side, ms: seq<Mount>, m: Mount)
    requires TidyMounts(ms) && m in ms && Eligible(side, m)
    ensures Tidy(At(side, m)) && TidyParts(PartsAt(side, m)) && KeyAt(side, m) == Abs(PartsAt(side, m))
  {
    hide Tidy, TidyParts, Components, CleanContainerPath, Abs, HasSource;
    TidyCleans(At(side, m));
  }

  lemma ChosenTidy(side: Side, ms: seq<Mount>, path: string, m: Mount)
    requires TidyMounts(ms) && Best(side, ms, path) == Some(m)
    ensures m in ms && Eligible(side, m) && Fits(side, m, path)
    ensures Tidy(At(side, m)) && TidyParts(PartsAt(side, m)) && KeyAt(side, m) == Abs(PartsAt(side, m))
  {
    hide Best, Tidy, TidyParts, PartsAt, KeyAt, Fits, TidyMounts, Abs;
    BestIsLongest(side, ms, path);
    FitsEligible(side, m, path);
    EligibleTidy(side, ms, m);
  }

  function PartsAt(side: Side, m: Mount): seq<string> {
    Components(At(side, m))
  }

  /** On tidy paths a mount fits when its components begin the path's. */
  lemma FitsExact(side: Side, m: Mount, path: string)
    requires Tidy(At(side, m)) && Tidy(path)
    ensures Fits(side, m, path) <==> PartsAt(side, m) <= Components(path)
    ensures KeyAt(side, m) == Abs(PartsAt(side, m))
  {
    hide CleanContainerPath, Components, Abs, Tidy, EndsTidy, Proper, WithSlash;
    TidyCleans(At(side, m));
    TidyCleans(path);
    var t, p := Components(path), PartsAt(side, m);
    AbsCleans(t);
    AbsCleans(p);
    AbsPrefix(t, p);
    AbsEnd(p);
    AbsEqual(t, p);
  }

  lemma LongerPartsLongerPath(a: seq<string>, b: seq<string>)
    requires TidyParts(a) && TidyParts(b) && a < b
    ensures |Abs(a)| < |Abs(b)|
  {
    AbsPrefix(b, a);
    AbsWithSlash(a);
    assert b[|b| - 1] in b[|a|..] && Proper(b[|b| - 1]);
    JoinLength(b[|a|..], '/');
  }

  /** The chosen cleaned path does not depend on the order of the list; ties are between mounts with the
      same cleaned path. */
  lemma BestDetermined(side: Side, ms: seq<Mount>, ms': seq<Mount>, path: string)
    requires Tidy(path) && (forall m :: m in ms && Eligible(side, m) ==> Tidy(At(side, m)))
    requires forall m :: m in ms <==> m in ms'
    ensures Best(side, ms, path).None? <==> Best(side, ms', path).None?
    ensures Best(side, ms, path).Some? ==>
              KeyAt(side, Best(side, ms, path).value) == KeyAt(side, Best(side, ms', path).value)
    ensures Best(side, ms, path).Some? ==>
              var key := KeyAt(side, Best(side, ms, path).value);
              forall m :: m in ms && Fits(side, m, path) && |KeyAt(side, m)| == |key| ==> KeyAt(side, m) == key
  {
    BestIsLongest(side, ms, path);
    BestIsLongest(side, ms', path);
    forall m, m' | m in ms && m' in ms && Fits(side, m, path) && Fits(side, m', path)
                   && |KeyAt(side, m)| == |KeyAt(side, m')|
      ensures KeyAt(side, m) == KeyAt(side, m')
    {
      FitsEligible(side, m, path);
      FitsEligible(side, m', path);
      SameLengthSameKey(side, m, m', path);
    }
  }

  lemma SameLengthSameKey(side: Side, m: Mount, m': Mount, path: string)
    requires Tidy(path) && Tidy(At(side, m)) && Tidy(At(side, m'))
    requires Fits(side, m, path) && Fits(side, m', path) && |KeyAt(side, m)| == |KeyAt(side, m')|
    ensures KeyAt(side, m) == KeyAt(side, m')
  {
    hide Fits, KeyAt, Abs, Components, Tidy, TidyParts;
    FitsExact(side, m, path);
    FitsExact(side, m', path);
    TidyComponents(At(side, m));
    TidyComponents(At(side, m'));
    var a, b := PartsAt(side, m), PartsAt(side, m');
    PrefixesNest(a, b, Components(path));
    if a < b { LongerPartsLongerPath(a, b); }
    if b < a { LongerPartsLongerPath(b, a); }
    assert a <= b && b <= a ==> a == b;
  }

  lemma PrefixesNest(a: seq<string>, b: seq<string>, c: seq<string>)
    requires a <= c && b <= c
    ensures a <= b || b <= a
  {
    assert a == c[..|a|] && b == c[..|b|];
    if |a| <= |b| { assert a == b[..|a|]; } else { assert b == a[..|b|]; }
  }

  // ----- the two translations -----

  function MountedSourcePath(ms: seq<Mount>, containerPath: string): Option<string> {
    var m := Best(Destination, ms, containerPath);
    if m.None? || Trim(m.value.source, IsSpace) == "" then None
    else Some(Rebased(CleanContainerPath(m.value.source), RelativeContainerPath(m.value.destination, containerPath)))
  }

  datatype Inside = Inside(path: string, writable: bool)

  function ContainerPathForMountedSource(ms: seq<Mount>, sourcePath: string): Option<Inside> {
    var m := Best(Source, ms, sourcePath);
    if m.None? then None
    else
      var relative := RelativeContainerPath(m.value.source, sourcePath);
      Some(Inside(Rebased(CleanContainerPath(m.value.destination), relative), m.value.rw))
  }

  /** Both translations swap the components of one side of the chosen mount for those of the other; one without a
      source has no path on the host. */
  lemma TranslationExact(side: Side, ms: seq<Mount>, path: string, m: Mount)
    requires TidyMounts(ms) && Tidy(path) && Best(side, ms, path) == Some(m)
    ensures m in ms && Eligible(side, m) && PartsAt(side, m) <= Components(path)
    ensures TidyParts(PartsAt(Destination, m)) && (HasSource(m) ==> TidyParts(PartsAt(Source, m)))
    ensures side == Destination ==>
              MountedSourcePath(ms, path)
              == if HasSource(m) then Some(Abs(PartsAt(Source, m) + Components(path)[|PartsAt(Destination, m)|..]))
                 else None
    ensures side == Source ==>
              ContainerPathForMountedSource(ms, path)
              == Some(Inside(Abs(PartsAt(Destination, m) + Components(path)[|PartsAt(Source, m)|..]), m.rw))
  {
    ChosenTidy(side, ms, path, m);
    FitsExact(side, m, path);
    TidyCleans(m.destination);
    if HasSource(m) {
      TidyCleans(m.source);
      RebaseGivesTarget(At(side, m), path, PartsAt(Other(side), m));
    }
  }

  /** No two mounts of the list that can be chosen on the given side are nested, or equal, there. */
  ghost predicate NotNested(side: Side, ms: seq<Mount>) {
    forall i, j :: 0 <= i < |ms| && 0 <= j < |ms| && i != j && Eligible(side, ms[i]) && Eligible(side, ms[j])
      ==> !(PartsAt(side, ms[i]) <= PartsAt(side, ms[j]))
  }

  /** Under a list that is not nested on a side, the mount that fits is the only one and is chosen. */
  lemma OnlyMountFits(side: Side, ms: seq<Mount>, path: string, m: Mount)
    requires (forall x :: x in ms && Eligible(side, x) ==> Tidy(At(side, x))) && Tidy(path) && NotNested(side, ms)
    requires m in ms && Eligible(side, m) && PartsAt(side, m) <= Components(path)
    ensures Best(side, ms, path) == Some(m)
  {
    hide CleanContainerPath, Components, Tidy, PathHasPrefix, HasSource;
    BestIsLongest(side, ms, path);
    FitsExact(side, m, path);
    var b := Best(side, ms, path).value;
    FitsEligible(side, b, path);
    FitsExact(side, b, path);
    PrefixesNest(PartsAt(side, m), PartsAt(side, b), Components(path));
    var i :| 0 <= i < |ms| && ms[i] == m;
    var j :| 0 <= j < |ms| && ms[j] == b;
  }

  lemma TidyRebased(parts: seq<string>, path: seq<string>, k: nat)
    requires TidyParts(parts) && TidyParts(path) && k <= |path|
    ensures TidyParts(parts + path[k..]) && Tidy(Abs(parts + path[k..])) &&
            Components(Abs(parts + path[k..])) == parts + path[k..]
  {
    var all := parts + path[k..];
    AbsComponents(all);
    AbsTidy(all);
  }

  lemma {:induction false} AbsTidy(parts: seq<string>)
    requires TidyParts(parts)
    ensures Tidy(Abs(parts))
  {
    if parts != [] {
      JoinTidy(parts);
      var j := Join(parts, '/');
      var a := "/" + j;
      forall i | 0 <= i < |a| && IsSpace(a[i]) ensures i + 1 < |a| && a[i + 1] != '/' {
        assert a[i] == j[i - 1];
      }
    }
  }

  lemma {:induction false} JoinTidy(parts: seq<string>)
    requires parts != [] && TidyParts(parts)
    ensures TidyText(Join(parts, '/'))
  {
    var p, j := parts[0], Join(parts, '/');
    assert p in parts && EndsTidy(p) && Proper(p);
    if |parts| > 1 {
      var r := Join(parts[1..], '/');
      JoinTidy(parts[1..]);
      assert j == p + ['/'] + r;
      forall i | 0 <= i < |j| && IsSpace(j[i]) ensures i + 1 < |j| && j[i + 1] != '/' {
        if i < |p| {
          assert j[i] == p[i] && i < |p| - 1;
          assert j[i + 1] == p[i + 1] && p[i + 1] in p;
        } else {
          assert i > |p|;
          assert j[i] == r[i - |p| - 1];
          assert r[i - |p|] == j[i + 1];
        }
      }
    } else {
      forall i | 0 <= i < |j| && IsSpace(j[i]) ensures i + 1 < |j| && j[i + 1] != '/' {
        assert p[i + 1] in p;
      }
    }
  }

  /** What a side's translation makes of a path. */
  function Across(side: Side, ms: seq<Mount>, path: string): Option<string> {
    if side == Destination then MountedSourcePath(ms, path)
    else var q := ContainerPathForMountedSource(ms, path); if q.None? then None else Some(q.value.path)
  }

  /** Translating the path to the other side and back gives the cleaned path. */
  predicate RoundTrips(side: Side, ms: seq<Mount>, path: string) {
    var q := Across(side, ms, path);
    q.Some? && Across(Other(side), ms, q.value) == Some(CleanContainerPath(path))
  }

  lemma AcrossExact(side: Side, ms: seq<Mount>, path: string, m: Mount)
    requires TidyMounts(ms) && Tidy(path) && Best(side, ms, path) == Some(m)
    ensures m in ms && Eligible(side, m) && PartsAt(side, m) <= Components(path) && TidyParts(PartsAt(side, m))
    ensures HasSource(m) ==> TidyParts(PartsAt(Other(side), m))
    ensures Across(side, ms, path)
            == if HasSource(m) then Some(Abs(PartsAt(Other(side), m) + Components(path)[|PartsAt(side, m)|..]))
               else None
  {
    hide Best, MountedSourcePath, ContainerPathForMountedSource, PartsAt, Abs, Components, Tidy, TidyParts, HasSource;
    TranslationExact(side, ms, path, m);
  }

  /** n has a source and lies on both sides where m does, by the same components. */
  predicate Aligned(side: Side, m: Mount, n: Mount) {
    var there, there' := PartsAt(Other(side), m), PartsAt(Other(side), n);
    HasSource(n) && there <= there' && PartsAt(side, n) == PartsAt(side, m) + there'[|there|..]
  }

  /** A path has another side when the mount chosen for it has a source; then it comes back where the mounts chosen
      out and back lie alike, and only there. */
  lemma RoundTripIff(side: Side, ms: seq<Mount>, path: string, m: Mount)
    requires TidyMounts(ms) && Tidy(path) && Best(side, ms, path) == Some(m)
    ensures Across(side, ms, path).Some? <==> HasSource(m)
    ensures HasSource(m) ==>
              var back := Best(Other(side), ms, Across(side, ms, path).value);
              back.Some? && PartsAt(Other(side), m) <= PartsAt(Other(side), back.value) &&
              (RoundTrips(side, ms, path) <==> Aligned(side, m, back.value))
  {
    hide Best, Across, PartsAt, CleanContainerPath, Abs, Components, Tidy, TidyParts, HasSource, TidyMounts;
    AcrossExact(side, ms, path, m);
    if HasSource(m) {
      TidyCleans(path);
      var here, there, full := PartsAt(side, m), PartsAt(Other(side), m), Components(path);
      TidyRebased(there, full, |here|);
      var q := Abs(there + full[|here|..]);
      ChosenBack(Other(side), ms, q, m);
      var n := Best(Other(side), ms, q).value;
      AcrossExact(Other(side), ms, q, n);
      if HasSource(n) {
        var there', here' := PartsAt(Other(side), n), PartsAt(side, n);
        OtherOfOther(side);
        ProperOfTidy(full);
        TidyRebased(here', Components(q), |there'|);
        ProperOfTidy(here' + Components(q)[|there'|..]);
        AbsEqual(here' + Components(q)[|there'|..], full);
        SameRest(here, there, here', there', full);
      }
    }
  }

  lemma OtherOfOther(side: Side)
    ensures Other(Other(side)) == side
  {
  }

  lemma ProperOfTidy(parts: seq<string>)
    requires TidyParts(parts)
    ensures AllProper(parts)
  {
  }

  /** The mount chosen for a path that another mount fits lies at or below that one. */
  lemma ChosenBack(side: Side, ms: seq<Mount>, path: string, m: Mount)
    requires TidyMounts(ms) && Tidy(path) && m in ms && Eligible(side, m) && PartsAt(side, m) <= Components(path)
    ensures Best(side, ms, path).Some? && PartsAt(side, m) <= PartsAt(side, Best(side, ms, path).value)
  {
    hide Best, PartsAt, Abs, Components, Tidy, TidyParts, Fits, TidyMounts, Eligible, KeyAt;
    BestIsLongest(side, ms, path);
    EligibleTidy(side, ms, m);
    FitsExact(side, m, path);
    var n := Best(side, ms, path).value;
    ChosenTidy(side, ms, path, n);
    FitsExact(side, n, path);
    PrefixesNest(PartsAt(side, m), PartsAt(side, n), Components(path));
    if PartsAt(side, n) < PartsAt(side, m) {
      LongerPartsLongerPath(PartsAt(side, n), PartsAt(side, m));
    }
  }

  lemma SameRest(here: seq<string>, there: seq<string>, here': seq<string>, there': seq<string>, full: seq<string>)
    requires here <= full && there <= there' && there' <= there + full[|here|..]
    ensures here' + (there + full[|here|..])[|there'|..] == full <==> here' == here + there'[|there|..]
  {
    var rest := full[|here|..];
    var q := there + rest;
    var tail := q[|there'|..];
    assert q == there' + tail;
    assert there' == there + there'[|there|..];
    assert rest == there'[|there|..] + tail by {
      assert rest == q[|there|..] == (there' + tail)[|there|..];
    }
    assert full == here + rest;
    assert full == (here + there'[|there|..]) + tail;
    if here' + tail == full {
      assert |here'| == |here + there'[|there|..]|;
      assert here' == full[..|here'|] == here + there'[|there|..];
    }
  }

  // ----- which lists round-trip -----

  /** Whatever can be chosen below another mount on the other side lies below it alike on this one. */
  ghost predicate AllAligned(side: Side, ms: seq<Mount>) {
    forall m, n | m in ms && n in ms && HasSource(m) && Eligible(Other(side), n)
      :: PartsAt(Other(side), m) <= PartsAt(Other(side), n) ==> Aligned(side, m, n)
  }

  /** Out and back: under such a list every path whose mount has a source comes back from it, with the writability
      of the mount it comes back through. */
  lemma SourceRoundTrip(ms: seq<Mount>, path: string)
    requires TidyMounts(ms) && Tidy(path) && AllAligned(Destination, ms)
    requires Best(Destination, ms, path).Some? && HasSource(Best(Destination, ms, path).value)
    ensures var q := MountedSourcePath(ms, path);
            q.Some? && Best(Source, ms, q.value).Some? &&
            ContainerPathForMountedSource(ms, q.value)
            == Some(Inside(CleanContainerPath(path), Best(Source, ms, q.value).value.rw))
  {
    hide PartsAt, CleanContainerPath, Abs, Components, Tidy, TidyParts, Best, Rebased, RelativeContainerPath, HasSource;
    AlignedRoundTrip(Destination, ms, path);
  }

  /** Back and out: the same for every path under some source. */
  lemma DestinationRoundTrip(ms: seq<Mount>, path: string)
    requires TidyMounts(ms) && Tidy(path) && AllAligned(Source, ms)
    requires exists m :: m in ms && HasSource(m) && PartsAt(Source, m) <= Components(path)
    ensures var q := ContainerPathForMountedSource(ms, path);
            q.Some? && MountedSourcePath(ms, q.value.path) == Some(CleanContainerPath(path))
  {
    hide PartsAt, CleanContainerPath, Abs, Components, Tidy, TidyParts, Best, HasSource;
    var m :| m in ms && HasSource(m) && PartsAt(Source, m) <= Components(path);
    ChosenBack(Source, ms, path, m);
    AcrossExact(Source, ms, path, Best(Source, ms, path).value);
    AlignedRoundTrip(Source, ms, path);
  }

  lemma AlignedRoundTrip(side: Side, ms: seq<Mount>, path: string)
    requires TidyMounts(ms) && Tidy(path) && AllAligned(side, ms)
    requires Best(side, ms, path).Some? && HasSource(Best(side, ms, path).value)
    ensures RoundTrips(side, ms, path) && Across(side, ms, path).Some?
  {
    hide PartsAt, CleanContainerPath, Abs, Components, Tidy, TidyParts, Best, RoundTrips, Across, Aligned, HasSource;
    var m := Best(side, ms, path).value;
    RoundTripIff(side, ms, path, m);
    var q := Across(side, ms, path).value;
    ChosenTidy(side, ms, path, m);
    ChosenTidy(Other(side), ms, q, Best(Other(side), ms, q).value);
  }

  /** Lists without nested mounts on the other side are of this kind; there the way back is through the same mount. */
  lemma NotNestedAligned(side: Side, ms: seq<Mount>)
    requires NotNested(Other(side), ms)
    ensures AllAligned(side, ms)
  {
    hide PartsAt, HasSource;
    forall m, n | m in ms && n in ms && HasSource(m) && Eligible(Other(side), n)
                  && PartsAt(Other(side), m) <= PartsAt(Other(side), n)
      ensures Aligned(side, m, n)
    {
      var i :| 0 <= i < |ms| && ms[i] == m;
      var j :| 0 <= j < |ms| && ms[j] == n;
      assert i == j;
    }
  }

  /** m is chosen for the path where n would lie were it aligned, and n for its own path on the other side. */
  predicate Meet(side: Side, ms: seq<Mount>, m: Mount, n: Mount) {
    var there, there' := PartsAt(Other(side), m), PartsAt(Other(side), n);
    && m in ms && n in ms && HasSource(m) && there <= there'
    && Best(side, ms, Abs(PartsAt(side, m) + there'[|there|..])) == Some(m)
    && Best(Other(side), ms, Abs(there')) == Some(n)
  }

  /** Every path of a side that has another side. */
  ghost predicate AllRoundTrip(side: Side, ms: seq<Mount>) {
    forall path :: Tidy(path) && Across(side, ms, path).Some? ==> RoundTrips(side, ms, path)
  }

  /** Exactly those lists let every path come back in which each two mounts that meet are aligned. */
  lemma AllRoundTripIff(side: Side, ms: seq<Mount>)
    requires TidyMounts(ms)
    ensures AllRoundTrip(side, ms) <==> forall m, n :: Meet(side, ms, m, n) ==> Aligned(side, m, n)
  {
    hide Best, PartsAt, Abs, Components, Tidy, TidyParts, RoundTrips, Meet, Aligned, Across, HasSource;
    if AllRoundTrip(side, ms) {
      forall m, n | Meet(side, ms, m, n) ensures Aligned(side, m, n) {
        MeetTidy(side, ms, m, n);
        MeetAligned(side, ms, m, n);
      }
    }
    if forall m, n :: Meet(side, ms, m, n) ==> Aligned(side, m, n) {
      forall path | Tidy(path) && Across(side, ms, path).Some? ensures RoundTrips(side, ms, path) {
        AcrossChosen(side, ms, path);
        var m := Best(side, ms, path).value;
        RoundTripIff(side, ms, path, m);
        ChosenMeet(side, ms, path, m);
      }
    }
  }

  lemma AcrossChosen(side: Side, ms: seq<Mount>, path: string)
    requires Across(side, ms, path).Some?
    ensures Best(side, ms, path).Some?
  {
  }

  /** The path on a side where n would lie were it aligned with m. */
  function MeetingPath(side: Side, m: Mount, n: Mount): string
    requires PartsAt(Other(side), m) <= PartsAt(Other(side), n)
  {
    Abs(PartsAt(side, m) + PartsAt(Other(side), n)[|PartsAt(Other(side), m)|..])
  }

  lemma MeetTidy(side: Side, ms: seq<Mount>, m: Mount, n: Mount)
    requires TidyMounts(ms) && Meet(side, ms, m, n)
    ensures PartsAt(Other(side), m) <= PartsAt(Other(side), n)
    ensures Tidy(MeetingPath(side, m, n)) && Best(side, ms, MeetingPath(side, m, n)) == Some(m)
    ensures Components(MeetingPath(side, m, n))
            == PartsAt(side, m) + PartsAt(Other(side), n)[|PartsAt(Other(side), m)|..]
  {
    hide Best, PartsAt, Abs, Components, Tidy, TidyParts, TidyMounts, HasSource;
    EligibleTidy(side, ms, m);
    ChosenTidy(Other(side), ms, Abs(PartsAt(Other(side), n)), n);
    TidyRebased(PartsAt(side, m), PartsAt(Other(side), n), |PartsAt(Other(side), m)|);
  }

  lemma MeetAligned(side: Side, ms: seq<Mount>, m: Mount, n: Mount)
    requires TidyMounts(ms) && AllRoundTrip(side, ms) && Meet(side, ms, m, n)
    requires PartsAt(Other(side), m) <= PartsAt(Other(side), n)
    requires Tidy(MeetingPath(side, m, n)) && Best(side, ms, MeetingPath(side, m, n)) == Some(m)
    requires Components(MeetingPath(side, m, n))
             == PartsAt(side, m) + PartsAt(Other(side), n)[|PartsAt(Other(side), m)|..]
    ensures Aligned(side, m, n)
  {
    hide Best, PartsAt, Abs, Components, Tidy, TidyParts, MeetingPath, RoundTrips, Across, Aligned, HasSource;
    var path := MeetingPath(side, m, n);
    var here, there, there' := PartsAt(side, m), PartsAt(Other(side), m), PartsAt(Other(side), n);
    RoundTripIff(side, ms, path, m);
    AcrossExact(side, ms, path, m);
    assert (here + there'[|there|..])[|here|..] == there'[|there|..];
    assert there + there'[|there|..] == there';
  }

  lemma ChosenMeet(side: Side, ms: seq<Mount>, path: string, m: Mount)
    requires TidyMounts(ms) && Tidy(path) && Best(side, ms, path) == Some(m) && Across(side, ms, path).Some?
    requires var back := Best(Other(side), ms, Across(side, ms, path).value);
             back.Some? && PartsAt(Other(side), m) <= PartsAt(Other(side), back.value)
    ensures Meet(side, ms, m, Best(Other(side), ms, Across(side, ms, path).value).value)
  {
    hide Best, PartsAt, Abs, Components, Tidy, TidyParts, Across, Fits, KeyAt, CleanContainerPath, Other, HasSource,
         TidyMounts;
    AcrossExact(side, ms, path, m);
    var here, there, full := PartsAt(side, m), PartsAt(Other(side), m), Components(path);
    var q := Abs(there + full[|here|..]);
    TidyComponents(path);
    TidyRebased(there, full, |here|);
    var n := Best(Other(side), ms, q).value;
    AcrossExact(Other(side), ms, q, n);
    var there' := PartsAt(Other(side), n);
    CutShort(here, there, there', full);
    BestOnPrefix(side, ms, path, here + there'[|there|..], m);
    BestOnPrefix(Other(side), ms, q, there', n);
  }

  lemma CutShort(here: seq<string>, there: seq<string>, there': seq<string>, full: seq<string>)
    requires here <= full && there <= there' <= there + full[|here|..]
    ensures here <= here + there'[|there|..] <= full
  {
    var rest := full[|here|..];
    assert there' == there + there'[|there|..];
    assert there'[|there|..] <= rest;
    assert full == here + rest;
  }

  /** A path keeps its mount when it is cut short above it. */
  lemma BestOnPrefix(side: Side, ms: seq<Mount>, path: string, parts: seq<string>, m: Mount)
    requires TidyMounts(ms) && Tidy(path) && Best(side, ms, path) == Some(m)
    requires PartsAt(side, m) <= parts <= Components(path)
    ensures Best(side, ms, Abs(parts)) == Some(m)
  {
    hide Best, PartsAt, Abs, Components, Tidy, TidyParts, Fits, TidyMounts, Eligible;
    TidyComponents(path);
    CutTidy(Components(path), |parts|);
    assert parts == Components(path)[..|parts|];
    forall x | x in ms ensures Fits(side, x, path) <==> Fits(side, x, Abs(parts)) {
      if Eligible(side, x) {
        EligibleTidy(side, ms, x);
        FitsExact(side, x, path);
        FitsExact(side, x, Abs(parts));
        if PartsAt(side, x) <= Components(path) {
          ChosenBack(side, ms, path, x);
        }
      } else {
        Unfit(side, x, path);
        Unfit(side, x, Abs(parts));
      }
    }
    SameFitsSameBest(side, ms, path, Abs(parts));
  }

  lemma CutTidy(parts: seq<string>, n: nat)
    requires TidyParts(parts) && n <= |parts|
    ensures Tidy(Abs(parts[..n])) && Components(Abs(parts[..n])) == parts[..n]
  {
    assert TidyParts(parts[..n]);
    AbsTidy(parts[..n]);
    AbsComponents(parts[..n]);
  }

  lemma {:induction false} SameFitsSameBest(side: Side, ms: seq<Mount>, path: string, path': string)
    requires forall x :: x in ms ==> (Fits(side, x, path) <==> Fits(side, x, path'))
    ensures Best(side, ms, path) == Best(side, ms, path')
  {
    hide Fits, KeyAt;
    if ms != [] {
      var init := ms[..|ms| - 1];
      assert forall x :: x in init ==> x in ms;
      assert ms[|ms| - 1] in ms;
      SameFitsSameBest(side, init, path, path');
    }
  }

  /** With nested sources the way back can lead elsewhere: here through the inner mount. */
  lemma NestedSourcesGoAstray(a: string, b: string, x: string, y: string)
    requires TidyParts([a, b, x, y]) && x != y
    ensures var ms := [Mount(Abs([a]), Abs([x]), true), Mount(Abs([a, b]), Abs([y]), true)];
            && MountedSourcePath(ms, Abs([x, b])) == Some(Abs([a, b]))
            && ContainerPathForMountedSource(ms, Abs([a, b])) == Some(Inside(Abs([y]), true))
            && Abs([y]) != CleanContainerPath(Abs([x, b]))
  {
    hide Abs, Components, Tidy, EndsTidy, Proper, MountedSourcePath, ContainerPathForMountedSource, CleanContainerPath;
    var outer, inner := Mount(Abs([a]), Abs([x]), true), Mount(Abs([a, b]), Abs([y]), true);
    var ms := [outer, inner];
    TidySingles(a, b, x, y);
    AstrayOut(ms, a, b, x, y);
    AstrayBack(ms, a, b, y);
    AbsCleans([x, b]);
    AbsEqual([y], [x, b]);
  }

  lemma TidySingles(a: string, b: string, x: string, y: string)
    requires TidyParts([a, b, x, y])
    ensures TidyParts([a]) && TidyParts([a, b]) && TidyParts([x]) && TidyParts([y]) && TidyParts([x, b])
    ensures Tidy(Abs([a])) && Tidy(Abs([a, b])) && Tidy(Abs([x])) && Tidy(Abs([y])) && Tidy(Abs([x, b]))
    ensures Components(Abs([a])) == [a] && Components(Abs([a, b])) == [a, b] && Components(Abs([x])) == [x]
    ensures Components(Abs([y])) == [y] && Components(Abs([x, b])) == [x, b]
  {
    hide Abs, Components, Tidy, Proper, EndsTidy;
    var all := [a, b, x, y];
    assert a in all && b in all && x in all && y in all;
    AbsTidy([a]); AbsTidy([a, b]); AbsTidy([x]); AbsTidy([y]); AbsTidy([x, b]);
    AbsComponents([a]); AbsComponents([a, b]); AbsComponents([x]); AbsComponents([y]); AbsComponents([x, b]);
  }

  lemma AstrayOut(ms: seq<Mount>, a: string, b: string, x: string, y: string)
    requires TidyParts([a, b, x, y]) && x != y
    requires ms == [Mount(Abs([a]), Abs([x]), true), Mount(Abs([a, b]), Abs([y]), true)]
    ensures MountedSourcePath(ms, Abs([x, b])) == Some(Abs([a, b]))
  {
    hide Abs, Components, Tidy, Best, MountedSourcePath, TidyParts, CleanContainerPath, HasSource;
    TidySingles(a, b, x, y);
    TidyHasSource(ms[0]);
    var path := Abs([x, b]);
    assert !([y] <= [x, b]) by { assert [x, b][0] == x; }
    assert NotNested(Destination, ms) by {
      assert PartsAt(Destination, ms[0]) == [x] && PartsAt(Destination, ms[1]) == [y];
      assert [x][0] == x && [y][0] == y;
    }
    assert [x] <= [x, b];
    OnlyMountFits(Destination, ms, path, ms[0]);
    TranslationExact(Destination, ms, path, ms[0]);
    assert [a] + [x, b][|[x]|..] == [a, b];
  }

  lemma AstrayBack(ms: seq<Mount>, a: string, b: string, y: string)
    requires |ms| == 2 && TidyMounts(ms) && ms[0].source == Abs([a]) && ms[1] == Mount(Abs([a, b]), Abs([y]), true)
    requires TidyParts([a]) && TidyParts([a, b]) && TidyParts([y]) && Tidy(Abs([a, b])) && Tidy(Abs([a]))
    requires Components(Abs([a])) == [a] && Components(Abs([a, b])) == [a, b] && Components(Abs([y])) == [y]
    ensures ContainerPathForMountedSource(ms, Abs([a, b])) == Some(Inside(Abs([y]), true))
  {
    hide Abs, Components, Tidy, Fits, KeyAt, ContainerPathForMountedSource, TidyParts;
    var q := Abs([a, b]);
    assert ms[0] in ms && ms[1] in ms;
    FitsExact(Source, ms[0], q);
    FitsExact(Source, ms[1], q);
    LongerPartsLongerPath([a], [a, b]);
    assert [a] <= [a, b];
    BestIsLongest(Source, ms, q);
    assert Best(Source, ms, q) == Some(ms[1]);
    TranslationExact(Source, ms, q, ms[1]);
    assert [y] + [a, b][2..] == [y];
  }

  // ----- confinement to a root -----

  /** What EvalSymlinks answers. */
  datatype Resolved = To(path: string) | Missing | Failed

  datatype SafePath = Safe(full: string, clean: string) | Denied

  function CleanRelative(relativePath: string): string {
    TrimPrefix(Clean("/" + relativePath), "/")
  }

  function FullPath(root: string, clean: string): string {
    if clean == "" then Clean(root) else JoinTwo(root, clean)
  }

  /** safeMountPath; symlink resolution is a parameter. */
  function SafeMountPath(givenRoot: string, relativePath: string, eval: string -> Resolved): SafePath {
    var root := Trim(givenRoot, IsSpace);
    if root == "" then Denied
    else
      var clean := CleanRelative(relativePath);
      var full := FullPath(root, clean);
      match eval(root)
      case Missing => if clean == "" then Safe(root, clean) else Denied
      case Failed => Denied
      case To(r) =>
        match eval(full)
        case Missing => Safe(full, clean)
        case Failed => Safe(full, clean)
        case To(t) => if Rel(r, t).None? || Escapes(Rel(r, t).value) then Denied else Safe(full, clean)
  }

  function CleanParts(relativePath: string): seq<string> {
    Components("/" + relativePath)
  }

  /** For every input the clean path consists of proper components, and cleaning it again changes nothing. */
  lemma CleanRelativeForm(relativePath: string)
    ensures AllProper(CleanParts(relativePath))
    ensures CleanRelative(relativePath) == Join(CleanParts(relativePath), '/')
    ensures CleanRelative(CleanRelative(relativePath)) == CleanRelative(relativePath)
    ensures CleanParts(CleanRelative(relativePath)) == CleanParts(relativePath)
    ensures CleanRelative(relativePath) == "" <==> CleanParts(relativePath) == []
  {
    var c := CleanParts(relativePath);
    ComponentsCanonical("/" + relativePath);
    assert Clean("/" + relativePath) == "/" + Join(c, '/');
    AbsComponents(c);
    assert "/" + Join(c, '/') == Abs(c);
    if c != [] {
      JoinLength(c, '/');
      assert c[0] in c && Proper(c[0]);
    }
  }

  /** Lexically the full path is the root's components followed by the clean path's. */
  lemma FullPathUnderRoot(root: string, relativePath: string)
    requires root != ""
    ensures Components(FullPath(root, CleanRelative(relativePath))) == Components(root) + CleanParts(relativePath)
    ensures Rooted(FullPath(root, CleanRelative(relativePath))) == Rooted(root)
  {
    CleanRelativeForm(relativePath);
    var c := CleanParts(relativePath);
    if c == [] {
      CleanIdempotent(root);
      assert Components(root) + c == Components(root);
    } else {
      ComponentsAppend(root, c);
      CleanIdempotent(root + "/" + Join(c, '/'));
    }
  }

  /** When root and target both resolve to absolute paths the call succeeds exactly when the resolved root's
      components begin the resolved target's, and then it answers the joined path and the clean path. */
  lemma SafeMountPathExact(givenRoot: string, relativePath: string, eval: string -> Resolved)
    requires var root := Trim(givenRoot, IsSpace);
             && root != "" && eval(root).To? && Rooted(eval(root).path)
             && eval(FullPath(root, CleanRelative(relativePath))).To?
             && Rooted(eval(FullPath(root, CleanRelative(relativePath))).path)
    ensures var root := Trim(givenRoot, IsSpace);
            var full := FullPath(root, CleanRelative(relativePath));
            SafeMountPath(givenRoot, relativePath, eval)
            == if Components(eval(root).path) <= Components(eval(full).path)
               then Safe(full, CleanRelative(relativePath)) else Denied
  {
    var root := Trim(givenRoot, IsSpace);
    RelEscapes(eval(root).path, eval(FullPath(root, CleanRelative(relativePath))).path);
  }

  // ----- from the relay's tree to another container -----

  function MountContainerPath(root: string, cleanPath: string): string {
    Rebased(CleanContainerPath(root), cleanPath)
  }

  /** The relay's path of a browsed entry is the root's components followed by the clean path's. */
  lemma MountContainerPathExact(root: string, relativePath: string)
    requires Tidy(root)
    ensures MountContainerPath(root, CleanRelative(relativePath)) == Abs(Components(root) + CleanParts(relativePath))
  {
    hide Rebased, CleanContainerPath, Abs, Components, Tidy, CleanRelative;
    TidyCleans(root);
    CleanRelativeForm(relativePath);
    RebasedParts(Components(root), CleanParts(relativePath));
    EmptyJoin(CleanParts(relativePath));
  }

  lemma EmptyJoin(parts: seq<string>)
    ensures parts == [] ==> Join(parts, '/') == ""
  {
  }

  /** The path shown for another container leads back to the very source the relay's own path stands for: both
      name the same thing on the host, whatever mounts the relay has, exactly when the container's mounts chosen for
      the source and for the shown path are aligned. */
  lemma ShownPathIsTheSameSource(relay: seq<Mount>, container: seq<Mount>, relayPath: string, m: Mount)
    requires TidyMounts(relay) && TidyMounts(container) && Tidy(relayPath)
    requires MountedSourcePath(relay, relayPath).Some?
    requires Best(Source, container, MountedSourcePath(relay, relayPath).value) == Some(m)
    ensures var source := MountedSourcePath(relay, relayPath).value;
            var shown := ContainerPathForMountedSource(container, source);
            && shown.Some? && Best(Destination, container, shown.value.path).Some?
            && (MountedSourcePath(container, shown.value.path) == Some(source) <==>
                Aligned(Source, m, Best(Destination, container, shown.value.path).value))
  {
    hide Best, PartsAt, CleanContainerPath, Abs, Components, Tidy, TidyParts, Aligned, Rebased, RelativeContainerPath;
    var r := Best(Destination, relay, relayPath).value;
    TranslationExact(Destination, relay, relayPath, r);
    var here, there := PartsAt(Destination, r), PartsAt(Source, r);
    TidyComponents(relayPath);
    TidyRebased(there, Components(relayPath), |here|);
    AbsCleans(there + Components(relayPath)[|here|..]);
    RoundTripIff(Source, container, MountedSourcePath(relay, relayPath).value, m);
  }
}
