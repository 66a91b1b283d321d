/** Slash-separated paths: the documented rules of Go's path.Clean, path.Join and filepath.Rel,
    as functions on the stack of components. */
module Paths {
  import opened Options
  import opened Text

  /** A component that survives cleaning. */
  predicate Proper(p: string) {
    p != "" && p != "." && p != ".." && '/' !in p
  }

  predicate AllProper(parts: seq<string>) {
    forall p :: p in parts ==> Proper(p)
  }

  /** One component pushed on the stack: "" and "." vanish, ".." takes back a real component, vanishes
      at the root and otherwise stays. */
  function Push(rooted: bool, stack: seq<string>, part: string): seq<string> {
    if part == "" || part == "." then stack
    else if part == ".." then
      if stack != [] && stack[|stack| - 1] != ".." then stack[..|stack| - 1]
      else if rooted then stack
      else stack + [".."]
    else stack + [part]
  }

  function Reduce(rooted: bool, stack: seq<string>, parts: seq<string>): seq<string>
    decreases |parts|
  {
    if parts == [] then stack else Reduce(rooted, Push(rooted, stack, parts[0]), parts[1..])
  }

  predicate Rooted(s: string) {
    s != "" && s[0] == '/'
  }

  function Components(s: string): seq<string> {
    Reduce(Rooted(s), [], Split(s, '/'))
  }

  function Render(rooted: bool, parts: seq<string>): string {
    if rooted then "/" + Join(parts, '/')
    else if parts == [] then "." else Join(parts, '/')
  }

  /** path.Clean */
  function Clean(s: string): string {
    Render(Rooted(s), Components(s))
  }

  /** The absolute clean path with these components. */
  function Abs(parts: seq<string>): string {
    Render(true, parts)
  }

  /** Upward steps first, only in relative paths, then proper components. */
  ghost predicate Canonical(rooted: bool, parts: seq<string>) {
    exists k :: 0 <= k <= |parts| && UpThenProper(rooted, parts, k)
  }

  predicate UpThenProper(rooted: bool, parts: seq<string>, k: nat) {
    k <= |parts| && (rooted ==> k == 0) &&
    (forall i :: 0 <= i < k ==> parts[i] == "..") && (forall i :: k <= i < |parts| ==> Proper(parts[i]))
  }

  lemma PushCanonical(rooted: bool, stack: seq<string>, part: string)
    requires Canonical(rooted, stack) && '/' !in part
    ensures Canonical(rooted, Push(rooted, stack, part))
  {
    var k :| 0 <= k <= |stack| && UpThenProper(rooted, stack, k);
    var r := Push(rooted, stack, part);
    if part == ".." && !(stack != [] && stack[|stack| - 1] != "..") && !rooted {
      assert k == |stack|;
      assert UpThenProper(rooted, r, k + 1);
    } else {
      assert UpThenProper(rooted, r, k);
    }
  }

  lemma {:induction false} ReduceCanonical(rooted: bool, stack: seq<string>, parts: seq<string>)
    requires Canonical(rooted, stack) && forall p :: p in parts ==> '/' !in p
    ensures Canonical(rooted, Reduce(rooted, stack, parts))
    decreases |parts|
  {
    if parts != [] {
      PushCanonical(rooted, stack, parts[0]);
      ReduceCanonical(rooted, Push(rooted, stack, parts[0]), parts[1..]);
    }
  }

  lemma ComponentsCanonical(s: string)
    ensures Canonical(Rooted(s), Components(s))
    ensures Rooted(s) ==> AllProper(Components(s))
  {
    SplitParts(s, '/');
    assert UpThenProper(Rooted(s), [], 0);
    ReduceCanonical(Rooted(s), [], Split(s, '/'));
  }

  lemma {:induction false} ReduceAppend(rooted: bool, stack: seq<string>, a: seq<string>, b: seq<string>)
    ensures Reduce(rooted, stack, a + b) == Reduce(rooted, Reduce(rooted, stack, a), b)
    decreases |a|
  {
    if a == [] {
      assert a + b == b;
    } else {
      assert (a + b)[1..] == a[1..] + b;
      ReduceAppend(rooted, Push(rooted, stack, a[0]), a[1..], b);
    }
  }

  lemma {:induction false} ReduceProper(rooted: bool, stack: seq<string>, parts: seq<string>)
    requires AllProper(parts)
    ensures Reduce(rooted, stack, parts) == stack + parts
    decreases |parts|
  {
    if parts == [] {
      assert stack + parts == stack;
    } else {
      assert Proper(parts[0]);
      assert Push(rooted, stack, parts[0]) == stack + [parts[0]];
      ReduceProper(rooted, stack + [parts[0]], parts[1..]);
      assert stack + [parts[0]] + parts[1..] == stack + parts;
    }
  }

  /** Reducing components that are already canonical changes nothing. */
  lemma {:induction false} ReduceFixed(rooted: bool, stack: seq<string>, parts: seq<string>)
    requires Canonical(rooted, stack + parts)
    ensures Reduce(rooted, stack, parts) == stack + parts
    decreases |parts|
  {
    if parts != [] {
      var all := stack + parts;
      var k :| 0 <= k <= |all| && UpThenProper(rooted, all, k);
      assert all[|stack|] == parts[0];
      assert stack != [] ==> all[|stack| - 1] == stack[|stack| - 1];
      assert Push(rooted, stack, parts[0]) == stack + [parts[0]];
      assert stack + [parts[0]] + parts[1..] == all;
      ReduceFixed(rooted, stack + [parts[0]], parts[1..]);
    }
  }

  lemma SplitRendered(rooted: bool, parts: seq<string>)
    requires Canonical(rooted, parts)
    ensures parts != [] ==> Split(Render(rooted, parts), '/') == (if rooted then [""] else []) + parts
    ensures parts == [] ==> Split(Render(rooted, parts), '/') == if rooted then ["", ""] else ["."]
    ensures Rooted(Render(rooted, parts)) == rooted
  {
    var k :| 0 <= k <= |parts| && UpThenProper(rooted, parts, k);
    assert forall p :: p in parts ==> '/' !in p && p != "";
    if parts == [] {
      SplitWhole(".", '/');
      assert "/" == [] + ['/'] + [];
      SplitAppend([], [], '/');
    } else {
      SplitJoin(parts, '/');
      var j := Join(parts, '/');
      assert j != "" && j[0] == parts[0][0];
      assert "/" + j == [] + ['/'] + j;
      SplitAppend([], j, '/');
    }
  }

  /** Rendering then splitting up again gives the components back. */
  lemma ComponentsOfRender(rooted: bool, parts: seq<string>)
    requires Canonical(rooted, parts)
    ensures Components(Render(rooted, parts)) == parts && Rooted(Render(rooted, parts)) == rooted
  {
    SplitRendered(rooted, parts);
    if parts == [] {
      assert Reduce(rooted, [], ["", ""]) == Reduce(rooted, [], [""]) by { assert ["", ""][1..] == [""]; }
    } else {
      assert [] + parts == parts;
      ReduceFixed(rooted, [], parts);
      if rooted {
        ReduceAppend(rooted, [], [""], parts);
      }
    }
  }

  /** Clean is idempotent. */
  lemma CleanIdempotent(s: string)
    ensures Clean(Clean(s)) == Clean(s)
    ensures Components(Clean(s)) == Components(s) && Rooted(Clean(s)) == Rooted(s)
  {
    ComponentsCanonical(s);
    ComponentsOfRender(Rooted(s), Components(s));
  }

  /** What one more component does to a path's: empty ones and dots vanish, a double dot takes back the last one
      unless that leads upwards itself, vanishes at the root and otherwise leads upwards; all others are added. */
  lemma ComponentsStep(s: string, part: string)
    requires s != "" && '/' !in part
    ensures var c := Components(s);
            Components(s + "/" + part) ==
            if part == "" || part == "." then c
            else if part != ".." then c + [part]
            else if c != [] && c[|c| - 1] != ".." then c[..|c| - 1]
            else if s[0] == '/' then c else c + [".."]
  {
    var t := s + ['/'] + part;
    assert t == s + "/" + part && t[0] == s[0];
    SplitAppend(s, part, '/');
    SplitWhole(part, '/');
    ReduceAppend(Rooted(s), [], Split(s, '/'), [part]);
    assert [part][1..] == [];
  }

  /** The components a path begins with, and how a cleaned path is spelled from its components. */
  lemma ComponentsStart(part: string, s: string)
    requires '/' !in part
    ensures Components(part) == if part == "" || part == "." then [] else [part]
    ensures Components("/" + part) == if part == "" || part == "." || part == ".." then [] else [part]
    ensures Clean(s) == if s != "" && s[0] == '/' then "/" + Join(Components(s), '/')
                        else if Components(s) == [] then "." else Join(Components(s), '/')
  {
    SplitWhole(part, '/');
    assert [part][1..] == [];
    assert part != "" ==> part[0] in part;
    assert !Rooted(part) && Reduce(false, [], [part]) == Reduce(false, Push(false, [], part), []);
    SplitAppend([], part, '/');
    assert "/" + part == [] + ['/'] + part;
    assert [""] + [part] == ["", part] && ["", part][1..] == [part];
    assert Reduce(true, [], ["", part]) == Reduce(true, [], [part]) == Reduce(true, Push(true, [], part), []);
  }

  lemma AbsComponents(parts: seq<string>)
    requires AllProper(parts)
    ensures Components(Abs(parts)) == parts && Rooted(Abs(parts)) && Clean(Abs(parts)) == Abs(parts)
  {
    assert UpThenProper(true, parts, 0);
    ComponentsOfRender(true, parts);
  }

  lemma AbsEqual(a: seq<string>, b: seq<string>)
    requires AllProper(a) && AllProper(b)
    ensures Abs(a) == Abs(b) <==> a == b
  {
    AbsComponents(a);
    AbsComponents(b);
  }

  /** path.Join of two elements, neither of them empty. */
  function JoinTwo(a: string, b: string): string {
    Clean(a + "/" + b)
  }

  /** Cleaning a followed by more components adds them to a's. */
  lemma ComponentsAppend(a: string, parts: seq<string>)
    requires a != "" && parts != [] && AllProper(parts)
    ensures Components(a + "/" + Join(parts, '/')) == Components(a) + parts
    ensures Rooted(a + "/" + Join(parts, '/')) == Rooted(a)
  {
    var j := Join(parts, '/');
    var s := a + ['/'] + j;
    assert s == a + "/" + j;
    assert s[0] == a[0];
    SplitAppend(a, j, '/');
    SplitJoin(parts, '/');
    ReduceAppend(Rooted(a), [], Split(a, '/'), parts);
    ReduceProper(Rooted(a), Components(a), parts);
  }

  lemma AppendProper(a: seq<string>, b: seq<string>)
    requires AllProper(a) && AllProper(b)
    ensures AllProper(a + b)
  {
  }

  /** filepath.Rel on the component lists of two paths that are both absolute or both relative. */
  function Ups(n: nat): seq<string> {
    if n == 0 then [] else [".."] + Ups(n - 1)
  }

  function CommonPrefix(a: seq<string>, b: seq<string>): nat
    ensures CommonPrefix(a, b) <= |a| && CommonPrefix(a, b) <= |b|
    ensures a[..CommonPrefix(a, b)] == b[..CommonPrefix(a, b)]
    ensures CommonPrefix(a, b) < |a| && CommonPrefix(a, b) < |b| ==> a[CommonPrefix(a, b)] != b[CommonPrefix(a, b)]
  {
    if a == [] || b == [] || a[0] != b[0] then 0
    else
      assert [a[0]] + a[1..][..CommonPrefix(a[1..], b[1..])] == a[..1 + CommonPrefix(a[1..], b[1..])];
      assert [b[0]] + b[1..][..CommonPrefix(a[1..], b[1..])] == b[..1 + CommonPrefix(a[1..], b[1..])];
      1 + CommonPrefix(a[1..], b[1..])
  }

  /** filepath.Rel: None stands for its error. */
  function Rel(base: string, target: string): Option<string> {
    var a, b := Components(base), Components(target);
    var k := CommonPrefix(a, b);
    if Rooted(base) != Rooted(target) then None
    else if k < |a| && a[k] == ".." then None
    else if a == b then Some(".")
    else Some(Join(Ups(|a| - k) + b[k..], '/'))
  }

  lemma PrefixIsCommon(a: seq<string>, b: seq<string>)
    ensures a <= b <==> CommonPrefix(a, b) == |a|
  {
    var k := CommonPrefix(a, b);
    assert a <= b ==> forall i :: 0 <= i < |a| ==> a[i] == b[i];
    if k == |a| { assert a[..k] == a; }
  }

  /** The relative path leads upwards. */
  predicate Escapes(rel: string) {
    rel == ".." || HasPrefix(rel, "../")
  }

  /** On absolute paths the relative path leads upwards exactly when the base's components are not a
      prefix of the target's; a component that merely begins with ".." makes no difference. */
  lemma RelEscapes(base: string, target: string)
    requires Rooted(base) && Rooted(target)
    ensures Rel(base, target).Some?
    ensures Escapes(Rel(base, target).value) <==> !(Components(base) <= Components(target))
  {
    var a, b := Components(base), Components(target);
    var k := CommonPrefix(a, b);
    ComponentsCanonical(base);
    ComponentsCanonical(target);
    PrefixIsCommon(a, b);
    assert k < |a| ==> Proper(a[k]);
    if a != b {
      var parts := Ups(|a| - k) + b[k..];
      if k < |a| {
        UpsFirst(|a| - k, b[k..]);
      } else {
        assert parts == b[k..] && parts != [];
        assert Proper(parts[0]);
        FirstProper(parts);
      }
    }
  }

  lemma UpsFirst(n: nat, rest: seq<string>)
    requires n > 0
    ensures Escapes(Join(Ups(n) + rest, '/'))
  {
    var parts := Ups(n) + rest;
    assert parts[0] == "..";
    if |parts| > 1 {
      var j := Join(parts, '/');
      assert j == ".." + "/" + Join(parts[1..], '/');
      assert j[..3] == "../";
    }
  }

  lemma EscapingFirst(j: string)
    ensures Escapes(j) ==> Split(j, '/')[0] == ".."
  {
    SplitWhole("..", '/');
    if HasPrefix(j, "../") {
      assert j == "../" + j[3..];
      assert "../" == ".." + ['/'];
      SplitAppend("..", j[3..], '/');
    }
  }

  lemma FirstProper(parts: seq<string>)
    requires parts != [] && AllProper(parts)
    ensures !Escapes(Join(parts, '/'))
  {
    assert Proper(parts[0]);
    SplitJoin(parts, '/');
    EscapingFirst(Join(parts, '/'));
  }
}
