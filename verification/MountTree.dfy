/** The lazily expanded tree of the mount browser over a finite file tree. */
module MountTree {
  import opened Options
  import opened Text
  import opened Sorting
  import opened Paths
  import opened Mounts

  datatype Node = File(size: int) | Symlink(size: int) | Dir(size: int, entries: seq<DirEntry>)

  datatype DirEntry = DirEntry(name: string, node: Node)

  /** Directory entries carry proper, pairwise different names. */
  predicate NamesDistinct(es: seq<DirEntry>) {
    forall i, j :: 0 <= i < j < |es| ==> es[i].name != es[j].name
  }

  predicate WellFormed(n: Node) {
    n.Dir? ==>
      && NamesDistinct(n.entries)
      && forall i :: 0 <= i < |n.entries| ==> Proper(n.entries[i].name) && WellFormed(n.entries[i].node)
  }

  function Height(n: Node): nat {
    if n.Dir? then 1 + HeightOf(n.entries) else 0
  }

  function HeightOf(es: seq<DirEntry>): nat {
    if es == [] then 0
    else
      var a, b := Height(es[0].node), HeightOf(es[1..]);
      if a > b then a else b
  }

  lemma {:induction false} ChildLower(es: seq<DirEntry>, e: DirEntry)
    requires e in es
    ensures Height(e.node) <= HeightOf(es)
  {
    if e != es[0] { ChildLower(es[1..], e); }
  }

  /** The node that an entry list has under a name. */
  function Named(es: seq<DirEntry>, name: string): Option<Node> {
    if es == [] then None
    else if es[0].name == name then Some(es[0].node)
    else Named(es[1..], name)
  }

  lemma {:induction false} NamedExact(es: seq<DirEntry>, name: string, n: Node)
    requires NamesDistinct(es)
    ensures Named(es, name) == Some(n) <==> DirEntry(name, n) in es
  {
    if es != [] {
      assert NamesDistinct(es[1..]) by {
        forall i, j | 0 <= i < j < |es[1..]| ensures es[1..][i].name != es[1..][j].name {
          assert es[i + 1].name != es[j + 1].name;
        }
      }
      NamedExact(es[1..], name, n);
      assert es == [es[0]] + es[1..];
      assert DirEntry(name, n) in es <==> es[0] == DirEntry(name, n) || DirEntry(name, n) in es[1..];
      assert forall e :: e in es[1..] ==> e.name != es[0].name by {
        forall j | 0 <= j < |es[1..]| ensures es[1..][j].name != es[0].name {
          assert es[0].name != es[j + 1].name;
        }
      }
    }
  }

  /** The node under a list of components, with no symlink on the way or at the end. */
  function Find(n: Node, parts: seq<string>): Option<Node>
    decreases |parts|
  {
    if n.Symlink? then None
    else if parts == [] then Some(n)
    else if !n.Dir? then None
    else
      var child := Named(n.entries, parts[0]);
      if child.None? then None else Find(child.value, parts[1..])
  }

  lemma {:induction false} FindAppend(n: Node, a: seq<string>, b: seq<string>)
    ensures Find(n, a + b) == if Find(n, a).None? then None else Find(Find(n, a).value, b)
    decreases |a|
  {
    if a == [] {
      assert a + b == b;
    } else if n.Dir? {
      assert (a + b)[0] == a[0] && (a + b)[1..] == a[1..] + b;
      var child := Named(n.entries, a[0]);
      if child.Some? { FindAppend(child.value, a[1..], b); }
    }
  }

  lemma {:induction false} FindWellFormed(n: Node, parts: seq<string>)
    requires WellFormed(n) && Find(n, parts).Some?
    ensures WellFormed(Find(n, parts).value) && !Find(n, parts).value.Symlink?
    decreases |parts|
  {
    if parts != [] {
      var child := Named(n.entries, parts[0]).value;
      NamedExact(n.entries, parts[0], child);
      FindWellFormed(child, parts[1..]);
    }
  }

  /** A mount root, what it resolves to, and the tree below it. Resolving leaves a path without symlinks below
      the root alone; elsewhere says what happens to every other path. */
  datatype FileSystem = FileSystem(root: string, resolved: seq<string>, tree: Node, elsewhere: string -> Resolved)

  predicate Sound(fs: FileSystem) {
    && fs.root != "" && Trimmed(fs.root, IsSpace) && AllProper(fs.resolved)
    && WellFormed(fs.tree) && fs.tree.Dir?
  }

  /** os.Stat on a path below the root. */
  function Stat(fs: FileSystem, path: string): Option<Node> {
    if Rooted(path) == Rooted(fs.root) && Components(fs.root) <= Components(path)
    then Find(fs.tree, Components(path)[|Components(fs.root)|..])
    else None
  }

  function EvalSymlinks(fs: FileSystem, path: string): Resolved {
    if Stat(fs, path).Some? then To(Abs(fs.resolved + Components(path)[|Components(fs.root)|..]))
    else fs.elsewhere(path)
  }

  function Evaluator(fs: FileSystem): string -> Resolved {
    path => EvalSymlinks(fs, path)
  }

  datatype Entry = Entry(name: string, path: string, isDir: bool, size: int, hasChildren: bool)

  predicate VisibleEntry(e: DirEntry) {
    !e.node.Symlink?
  }

  /** directoryHasVisibleEntries */
  predicate HasVisible(n: Node) {
    n.Dir? && exists e :: e in n.entries && VisibleEntry(e)
  }

  /** filepath.Base of a full path below the root. */
  function BaseOf(path: string): string {
    var c := Components(path);
    if c == [] then "/" else c[|c| - 1]
  }

  function MountEntry(fs: FileSystem, relativePath: string): Option<Entry> {
    match SafeMountPath(fs.root, relativePath, Evaluator(fs))
    case Denied => None
    case Safe(full, clean) =>
      var info := Stat(fs, full);
      if info.None? then None
      else Some(Entry(BaseOf(full), clean, info.value.Dir?, info.value.size, HasVisible(info.value)))
  }

  function PathJoin(left: string, right: string): string {
    if left == "" then right else left + "/" + right
  }

  /** Directories first, then by lower-cased name. */
  predicate ListedBefore(a: DirEntry, b: DirEntry) {
    if a.node.Dir? != b.node.Dir? then a.node.Dir? else LexLess(ToLower(a.name), ToLower(b.name))
  }

  /** The loop over the sorted entries: symlinks and entries that cannot be read are passed over. */
  function EntriesOf(fs: FileSystem, relativePath: string, es: seq<DirEntry>): seq<Entry> {
    if es == [] then []
    else
      var init := EntriesOf(fs, relativePath, es[..|es| - 1]);
      var last := es[|es| - 1];
      var child := MountEntry(fs, PathJoin(relativePath, last.name));
      if !VisibleEntry(last) || child.None? then init else init + [child.value]
  }

  function Children(fs: FileSystem, relativePath: string): Option<seq<Entry>> {
    match SafeMountPath(fs.root, relativePath, Evaluator(fs))
    case Denied => None
    case Safe(full, _) =>
      var info := Stat(fs, full);
      if info.None? || !info.value.Dir? then None
      else Some(EntriesOf(fs, relativePath, Sort(info.value.entries, ListedBefore)))
  }

  method MountChildren(fs: FileSystem, relativePath: string) returns (r: Option<seq<Entry>>)
    ensures r == Children(fs, relativePath)
  {
    hide SafeMountPath, MountEntry, Stat;
    var safe := SafeMountPath(fs.root, relativePath, Evaluator(fs));
    if safe.Denied? { return None; }
    var info := Stat(fs, safe.full);
    if info.None? || !info.value.Dir? { return None; }
    var dirEntries := Sort(info.value.entries, ListedBefore);
    var children := [];
    for i := 0 to |dirEntries|
      invariant children == EntriesOf(fs, relativePath, dirEntries[..i])
    {
      assert dirEntries[..i + 1][..i] == dirEntries[..i];
      if VisibleEntry(dirEntries[i]) {
        var child := MountEntry(fs, PathJoin(relativePath, dirEntries[i].name));
        if child.Some? {
          children := children + [child.value];
        }
      }
    }
    assert dirEntries[..|dirEntries|] == dirEntries;
    return Some(children);
  }

  lemma JoinedParts(relativePath: string, name: string)
    requires Proper(name)
    ensures CleanParts(PathJoin(relativePath, name)) == CleanParts(relativePath) + [name]
  {
    if relativePath == "" {
      assert AllProper([name]) && Abs([name]) == "/" + name && Abs([]) == "/" + "";
      AbsComponents([name]);
      AbsComponents([]);
    } else {
      assert "/" + (relativePath + "/" + name) == ("/" + relativePath) + "/" + Join([name], '/');
      ComponentsAppend("/" + relativePath, [name]);
    }
  }

  /** Below the root, a path without symlinks is let through and leads to its node. */
  lemma SafeBelowRoot(fs: FileSystem, relativePath: string)
    requires Sound(fs) && Find(fs.tree, CleanParts(relativePath)).Some?
    ensures var full := FullPath(fs.root, CleanRelative(relativePath));
            && SafeMountPath(fs.root, relativePath, Evaluator(fs)) == Safe(full, CleanRelative(relativePath))
            && Stat(fs, full) == Find(fs.tree, CleanParts(relativePath))
            && Components(full) == Components(fs.root) + CleanParts(relativePath)
  {
    var c, rc := CleanParts(relativePath), Components(fs.root);
    var full := FullPath(fs.root, CleanRelative(relativePath));
    TrimIsTrimmed(fs.root, IsSpace);
    CleanRelativeForm(relativePath);
    FullPathUnderRoot(fs.root, relativePath);
    hide FullPath, CleanRelative, CleanParts, Find, Rel, Escapes, SafeMountPath, Components, Trim, Abs;
    assert (rc + c)[|rc|..] == c && rc <= rc + c;
    assert Stat(fs, full) == Find(fs.tree, c);
    assert rc[|rc|..] == [];
    RootFound(fs);
    assert fs.resolved + [] == fs.resolved;
    assert Evaluator(fs)(fs.root) == To(Abs(fs.resolved));
    assert Evaluator(fs)(full) == To(Abs(fs.resolved + c));
    AppendProper(fs.resolved, c);
    AbsComponents(fs.resolved);
    AbsComponents(fs.resolved + c);
    assert fs.resolved <= fs.resolved + c;
    SafeMountPathExact(fs.root, relativePath, Evaluator(fs));
  }

  lemma RootFound(fs: FileSystem)
    requires Sound(fs)
    ensures Find(fs.tree, []) == Some(fs.tree)
  {
  }

  /** The entry a listing shows for a directory entry under the directory parts. */
  function EntryFor(parts: seq<string>, e: DirEntry): Entry {
    Entry(e.name, Join(parts + [e.name], '/'), e.node.Dir?, e.node.size, HasVisible(e.node))
  }

  function EntriesFor(parts: seq<string>, es: seq<DirEntry>): seq<Entry> {
    if es == [] then []
    else
      EntriesFor(parts, es[..|es| - 1]) +
      if VisibleEntry(es[|es| - 1]) then [EntryFor(parts, es[|es| - 1])] else []
  }

  /** The path is a directory, reached without symlinks, with these entries. */
  predicate DirAt(fs: FileSystem, relativePath: string, entries: seq<DirEntry>) {
    var n := Find(fs.tree, CleanParts(relativePath));
    n.Some? && n.value.Dir? && n.value.entries == entries
  }

  lemma MountEntryExact(fs: FileSystem, relativePath: string, entries: seq<DirEntry>, e: DirEntry)
    requires Sound(fs) && DirAt(fs, relativePath, entries) && e in entries &&
             VisibleEntry(e)
    ensures MountEntry(fs, PathJoin(relativePath, e.name)) == Some(EntryFor(CleanParts(relativePath), e))
    ensures Find(fs.tree, CleanParts(relativePath) + [e.name]) == Some(e.node) && Proper(e.name)
  {
    var c, child := CleanParts(relativePath), PathJoin(relativePath, e.name);
    FindWellFormed(fs.tree, c);
    NamedExact(entries, e.name, e.node);
    FindAppend(fs.tree, c, [e.name]);
    assert Find(Find(fs.tree, c).value, [e.name]) == Find(e.node, []) by { assert [e.name][1..] == []; }
    JoinedParts(relativePath, e.name);
    CleanRelativeForm(child);
    SafeBelowRoot(fs, child);
  }

  lemma {:induction false} EntriesExact(fs: FileSystem, relativePath: string, entries: seq<DirEntry>, es: seq<DirEntry>)
    requires Sound(fs) && DirAt(fs, relativePath, entries)
    requires forall e :: e in es ==> e in entries
    ensures EntriesOf(fs, relativePath, es) == EntriesFor(CleanParts(relativePath), es)
  {
    hide MountEntry, Find, CleanParts, Sound, EntryFor;
    if es != [] {
      EntriesExact(fs, relativePath, entries, es[..|es| - 1]);
      if VisibleEntry(es[|es| - 1]) {
        MountEntryExact(fs, relativePath, entries, es[|es| - 1]);
      }
    }
  }

  /** A directory reached without symlinks is listed, sorted, symlinks left out. */
  lemma ChildrenExact(fs: FileSystem, relativePath: string, entries: seq<DirEntry>)
    requires Sound(fs) && DirAt(fs, relativePath, entries)
    ensures Children(fs, relativePath) == Some(EntriesFor(CleanParts(relativePath), Sort(entries, ListedBefore)))
  {
    hide CleanParts, Find, Sound, SafeMountPath, EntriesFor, EntriesOf, FullPath, CleanRelative;
    SafeBelowRoot(fs, relativePath);
    SortElements(entries, ListedBefore);
    EntriesExact(fs, relativePath, entries, Sort(entries, ListedBefore));
  }

  // ----- expanding every returned directory -----

  /** How much further the tree goes below a path; 0 where there is no directory. */
  function HeightAt(fs: FileSystem, relativePath: string): nat {
    var n := Find(fs.tree, CleanParts(relativePath));
    if n.None? then 0 else Height(n.value)
  }

  ghost predicate AllBelow(fs: FileSystem, list: seq<Entry>, h: nat) {
    forall e :: e in list && e.isDir ==> Find(fs.tree, CleanParts(e.path)).Some? && HeightAt(fs, e.path) < h
  }

  /** Listing a directory, then every directory it returned, by its path, and so on. The recursion ends because
      each returned directory is lower than the one listed. */
  ghost function Expand(fs: FileSystem, relativePath: string): seq<Entry>
    requires Sound(fs) && Find(fs.tree, CleanParts(relativePath)).Some?
    decreases HeightAt(fs, relativePath), 1, 0
  {
    var list := Children(fs, relativePath);
    if list.None? then []
    else
      ListedBelow(fs, relativePath);
      list.value + ExpandEach(fs, list.value, HeightAt(fs, relativePath))
  }

  ghost function ExpandEach(fs: FileSystem, list: seq<Entry>, h: nat): seq<Entry>
    requires Sound(fs) && AllBelow(fs, list, h)
    decreases h, 0, |list|
  {
    if list == [] then []
    else (if list[0].isDir then Expand(fs, list[0].path) else []) + ExpandEach(fs, list[1..], h)
  }

  lemma {:induction false} EntriesForElements(parts: seq<string>, es: seq<DirEntry>, x: Entry)
    ensures x in EntriesFor(parts, es) <==> exists e :: e in es && VisibleEntry(e) && x == EntryFor(parts, e)
  {
    hide EntryFor;
    if es != [] {
      var init, last := es[..|es| - 1], es[|es| - 1];
      EntriesForElements(parts, init, x);
      assert es == init + [last];
      assert forall e :: e in es <==> e in init || e == last;
      assert last in es;
    }
  }

  /** The path of a listed entry leads back to its node. */
  lemma EntryPath(parts: seq<string>, e: DirEntry)
    requires AllProper(parts) && Proper(e.name)
    ensures CleanParts(EntryFor(parts, e).path) == parts + [e.name]
  {
    JoinedProper(parts + [e.name]);
  }

  lemma JoinedProper(parts: seq<string>)
    requires AllProper(parts)
    ensures CleanParts(Join(parts, '/')) == parts
  {
    AbsComponents(parts);
  }

  lemma ListedBelow(fs: FileSystem, relativePath: string)
    requires Sound(fs) && Find(fs.tree, CleanParts(relativePath)).Some? && Children(fs, relativePath).Some?
    ensures AllBelow(fs, Children(fs, relativePath).value, HeightAt(fs, relativePath))
  {
    hide EntriesFor, EntryFor, CleanParts, CleanRelative, FullPath, SafeMountPath, Proper;
    var c := CleanParts(relativePath);
    SafeBelowRoot(fs, relativePath);
    CleanRelativeForm(relativePath);
    var entries := Find(fs.tree, c).value.entries;
    ChildrenExact(fs, relativePath, entries);
    var sorted := Sort(entries, ListedBefore);
    SortElements(entries, ListedBefore);
    forall x | x in EntriesFor(c, sorted) && x.isDir
      ensures Find(fs.tree, CleanParts(x.path)).Some? && HeightAt(fs, x.path) < HeightAt(fs, relativePath)
    {
      EntriesForElements(c, sorted, x);
      var e :| e in sorted && VisibleEntry(e) && x == EntryFor(c, e);
      MountEntryExact(fs, relativePath, entries, e);
      EntryPath(c, e);
      ChildLower(entries, e);
    }
  }

  /** Everything below a node that has no symlink on its path, itself included. */
  predicate Visible(n: Node, parts: seq<string>) {
    Find(n, parts).Some?
  }

  /** The path s, in the form the browser shows it, denotes something below the directory parts that has no
      symlink on the way from there. */
  predicate Reached(n: Node, parts: seq<string>, s: string) {
    var k := CleanParts(s);
    s == Join(k, '/') && parts < k && Visible(n, k[|parts|..])
  }

  function PathsOf(list: seq<Entry>): seq<string> {
    if list == [] then [] else [list[0].path] + PathsOf(list[1..])
  }

  lemma {:induction false} PathsAppend(a: seq<Entry>, b: seq<Entry>)
    ensures PathsOf(a + b) == PathsOf(a) + PathsOf(b)
  {
    if a == [] {
      assert a + b == b;
    } else {
      assert (a + b)[1..] == a[1..] + b;
      PathsAppend(a[1..], b);
    }
  }

  function Count(list: seq<Entry>, s: string): nat {
    multiset(PathsOf(list))[s]
  }

  lemma CountAppend(a: seq<Entry>, b: seq<Entry>, s: string)
    ensures Count(a + b, s) == Count(a, s) + Count(b, s)
  {
    PathsAppend(a, b);
  }

  lemma CountOne(x: Entry, s: string)
    ensures Count([x], s) == One(x.path == s) && Count([], s) == 0
  {
    assert [x][1..] == [];
    assert PathsOf([x]) == [x.path];
  }

  function One(b: bool): nat {
    if b then 1 else 0
  }

  /** s is the path of a visible entry of the list. */
  ghost predicate ShownIn(parts: seq<string>, es: seq<DirEntry>, s: string) {
    exists e :: e in es && VisibleEntry(e) && s == Join(parts + [e.name], '/')
  }

  lemma SamePathSameName(parts: seq<string>, a: string, b: string)
    requires AllProper(parts) && Proper(a) && Proper(b) && Join(parts + [a], '/') == Join(parts + [b], '/')
    ensures a == b
  {
    JoinedProper(parts + [a]);
    JoinedProper(parts + [b]);
    assert (parts + [a])[|parts|] == a && (parts + [b])[|parts|] == b;
  }

  lemma LastIsNew(parts: seq<string>, es: seq<DirEntry>)
    requires es != [] && AllProper(parts) && NamesDistinct(es) && forall e :: e in es ==> Proper(e.name)
    ensures !ShownIn(parts, es[..|es| - 1], Join(parts + [es[|es| - 1].name], '/'))
    ensures NamesDistinct(es[..|es| - 1])
    ensures forall e :: e in es[..|es| - 1] ==> e in es && e.name != es[|es| - 1].name
  {
    hide Proper;
    var init, last := es[..|es| - 1], es[|es| - 1];
    forall e | e in init
      ensures e in es && e.name != last.name && Join(parts + [e.name], '/') != Join(parts + [last.name], '/')
    {
      var i :| 0 <= i < |init| && init[i] == e;
      assert es[i] == e && es[i].name != es[|es| - 1].name;
      assert last in es;
      if Join(parts + [e.name], '/') == Join(parts + [last.name], '/') {
        SamePathSameName(parts, e.name, last.name);
      }
    }
  }

  lemma {:induction false} CountShown(parts: seq<string>, es: seq<DirEntry>, s: string)
    requires AllProper(parts) && NamesDistinct(es) && forall e :: e in es ==> Proper(e.name)
    ensures Count(EntriesFor(parts, es), s) == One(ShownIn(parts, es, s))
  {
    hide Proper, NamesDistinct, VisibleEntry, AllProper, Join, Count, HasVisible;
    CountOne(Entry("", "", false, 0, false), s);
    if es != [] {
      var init, last := es[..|es| - 1], es[|es| - 1];
      LastIsNew(parts, es);
      CountShown(parts, init, s);
      CountOne(EntryFor(parts, last), s);
      CountAppend(EntriesFor(parts, init), if VisibleEntry(last) then [EntryFor(parts, last)] else [], s);
      OneMoreShown(parts, init, last, s);
      assert init + [last] == es;
    }
  }

  lemma OneMoreShown(parts: seq<string>, init: seq<DirEntry>, last: DirEntry, s: string)
    ensures ShownIn(parts, init + [last], s) <==>
            ShownIn(parts, init, s) || (VisibleEntry(last) && s == Join(parts + [last.name], '/'))
  {
    assert last in init + [last];
    assert forall e :: e in init + [last] <==> e in init || e == last;
  }

  /** s lies strictly below a visible entry of the list. */
  ghost predicate ReachedIn(parts: seq<string>, es: seq<DirEntry>, s: string) {
    exists e :: e in es && VisibleEntry(e) && Reached(e.node, parts + [e.name], s)
  }

  /** What is below a directory is what it shows and what lies below that, never both. */
  lemma ReachedSplit(parts: seq<string>, d: Node, s: string)
    requires AllProper(parts) && WellFormed(d) && d.Dir?
    ensures Reached(d, parts, s) <==> ShownIn(parts, d.entries, s) || ReachedIn(parts, d.entries, s)
    ensures !(ShownIn(parts, d.entries, s) && ReachedIn(parts, d.entries, s))
  {
    var k := CleanParts(s);
    forall e | e in d.entries && VisibleEntry(e)
      ensures s == Join(parts + [e.name], '/') ==> k == parts + [e.name] && Reached(d, parts, s)
      ensures Reached(e.node, parts + [e.name], s) ==> |k| > |parts| + 1 && Reached(d, parts, s)
    {
      BelowEntry(parts, d, e, s);
    }
    if Reached(d, parts, s) {
      var name := k[|parts|];
      var n := Named(d.entries, name).value;
      NamedExact(d.entries, name, n);
      var e := DirEntry(name, n);
      assert e in d.entries;
      assert k[|parts|..][1..] == k[|parts| + 1..];
      assert Find(n, k[|parts| + 1..]).Some?;
      assert VisibleEntry(e);
      if |k| == |parts| + 1 {
        assert k == parts + [name];
      } else {
        assert parts + [name] == k[..|parts| + 1];
        assert k[|parts + [name]|..] == k[|parts| + 1..];
        assert Reached(e.node, parts + [e.name], s);
      }
    }
  }

  lemma BelowEntry(parts: seq<string>, d: Node, e: DirEntry, s: string)
    requires AllProper(parts) && WellFormed(d) && d.Dir? && e in d.entries && VisibleEntry(e)
    ensures s == Join(parts + [e.name], '/') ==> CleanParts(s) == parts + [e.name] && Reached(d, parts, s)
    ensures Reached(e.node, parts + [e.name], s) ==> |CleanParts(s)| > |parts| + 1 && Reached(d, parts, s)
  {
    hide *;
    if s == Join(parts + [e.name], '/') { ShownIsReached(parts, d, e, s); }
    if Reached(e.node, parts + [e.name], s) { ReachedBelow(parts, d, e, s); }
  }

  lemma ShownIsReached(parts: seq<string>, d: Node, e: DirEntry, s: string)
    requires AllProper(parts) && WellFormed(d) && d.Dir? && e in d.entries && VisibleEntry(e)
    requires s == Join(parts + [e.name], '/')
    ensures CleanParts(s) == parts + [e.name] && Reached(d, parts, s)
  {
    hide CleanParts, Join, Find, WellFormed, Proper, AllProper, NamesDistinct;
    var p := parts + [e.name];
    EntryNamesIn(d);
    ProperSnoc(parts, e.name);
    JoinedProper(p);
    assert p[|parts|..] == [e.name];
    FindChild(d, e, []);
    assert [e.name] + [] == [e.name];
    FindSelf(e.node);
  }

  lemma ReachedBelow(parts: seq<string>, d: Node, e: DirEntry, s: string)
    requires WellFormed(d) && d.Dir? && e in d.entries && Reached(e.node, parts + [e.name], s)
    ensures |CleanParts(s)| > |parts| + 1 && Reached(d, parts, s)
  {
    hide CleanParts, Join, Find, WellFormed, NamesDistinct;
    var k, p := CleanParts(s), parts + [e.name];
    var rest := k[|p|..];
    assert k == p + rest;
    PrefixRest(parts, e.name, rest);
    FindChild(d, e, rest);
  }

  lemma PrefixRest(parts: seq<string>, name: string, rest: seq<string>)
    ensures parts < parts + [name] + rest && (parts + [name] + rest)[|parts|..] == [name] + rest
  {
  }

  lemma ProperSnoc(parts: seq<string>, name: string)
    requires AllProper(parts) && Proper(name)
    ensures AllProper(parts + [name])
  {
  }

  lemma FindSelf(n: Node)
    ensures Find(n, []).Some? <==> !n.Symlink?
  {
  }

  lemma EntryNamesIn(d: Node)
    requires WellFormed(d) && d.Dir?
    ensures NamesDistinct(d.entries) && forall e :: e in d.entries ==> Proper(e.name)
  {
  }

  lemma FindChild(d: Node, e: DirEntry, rest: seq<string>)
    requires WellFormed(d) && d.Dir? && e in d.entries
    ensures Find(d, [e.name] + rest) == Find(e.node, rest)
  {
    NamedExact(d.entries, e.name, e.node);
    assert ([e.name] + rest)[1..] == rest;
  }

  lemma {:induction false} ExpandEachAppend(fs: FileSystem, a: seq<Entry>, b: seq<Entry>, h: nat)
    requires Sound(fs) && AllBelow(fs, a, h) && AllBelow(fs, b, h) && AllBelow(fs, a + b, h)
    ensures ExpandEach(fs, a + b, h) == ExpandEach(fs, a, h) + ExpandEach(fs, b, h)
  {
    hide Expand, Sound;
    if a == [] {
      assert a + b == b;
    } else {
      assert (a + b)[1..] == a[1..] + b;
      ExpandEachAppend(fs, a[1..], b, h);
    }
  }

  lemma {:induction false} ExpandEachCount(fs: FileSystem, rel: string, entries: seq<DirEntry>, es: seq<DirEntry>,
                                           s: string)
    requires Sound(fs) && DirAt(fs, rel, entries)
    requires NamesDistinct(es) && forall e :: e in es ==> e in entries
    requires AllBelow(fs, EntriesFor(CleanParts(rel), es), HeightAt(fs, rel))
    ensures Count(ExpandEach(fs, EntriesFor(CleanParts(rel), es), HeightAt(fs, rel)), s)
            == One(ReachedIn(CleanParts(rel), es, s))
    decreases HeightAt(fs, rel), 0, |es|
  {
    var c, h := CleanParts(rel), HeightAt(fs, rel);
    hide CleanParts, Sound, Reached, Find, Proper, Join, HeightAt, Expand, NamesDistinct, EntryFor, AllProper, Count;
    if es == [] {
      CountOne(Entry("", "", false, 0, false), s);
    } else {
      var init, last := es[..|es| - 1], es[|es| - 1];
      assert last in es && forall e :: e in init ==> e in es;
      EntryNames(fs, rel, entries);
      LastIsNew(c, es);
      var before := EntriesFor(c, init);
      OneMoreReached(c, init, last, s);
      assert init + [last] == es;
      if VisibleEntry(last) {
        var x := EntryFor(c, last);
        assert EntriesFor(c, es) == before + [x];
        assert AllBelow(fs, before, h) && AllBelow(fs, [x], h);
        ExpandEachCount(fs, rel, entries, init, s);
        ExpandEachAppend(fs, before, [x], h);
        CountAppend(ExpandEach(fs, before, h), ExpandEach(fs, [x], h), s);
        ExpandOneCount(fs, rel, entries, last, x, s);
        if ReachedIn(c, init, s) && Reached(last.node, c + [last.name], s) {
          ReachedApart(c, init, last, s);
        }
      } else {
        assert EntriesFor(c, es) == before;
        ExpandEachCount(fs, rel, entries, init, s);
      }
    }
  }

  lemma EntryNames(fs: FileSystem, rel: string, entries: seq<DirEntry>)
    requires Sound(fs) && DirAt(fs, rel, entries)
    ensures AllProper(CleanParts(rel)) && NamesDistinct(entries)
    ensures forall e :: e in entries ==> Proper(e.name)
  {
    FindWellFormed(fs.tree, CleanParts(rel));
    CleanRelativeForm(rel);
  }

  lemma OneMoreReached(parts: seq<string>, init: seq<DirEntry>, last: DirEntry, s: string)
    ensures ReachedIn(parts, init + [last], s) <==>
            ReachedIn(parts, init, s) || (VisibleEntry(last) && Reached(last.node, parts + [last.name], s))
  {
    hide Reached;
    assert last in init + [last];
    assert forall e :: e in init + [last] <==> e in init || e == last;
  }

  /** Nothing lies below two entries of different names. */
  lemma ReachedApart(parts: seq<string>, init: seq<DirEntry>, last: DirEntry, s: string)
    requires ReachedIn(parts, init, s) && forall e :: e in init ==> e.name != last.name
    ensures !Reached(last.node, parts + [last.name], s)
  {
    hide CleanParts, Find, Join;
    var e :| e in init && VisibleEntry(e) && Reached(e.node, parts + [e.name], s);
    var k := CleanParts(s);
    assert (parts + [e.name])[|parts|] == e.name && k[|parts|] == e.name;
    assert (parts + [last.name])[|parts|] == last.name;
  }

  lemma {:induction false} ExpandOneCount(fs: FileSystem, rel: string, entries: seq<DirEntry>, e: DirEntry, x: Entry,
                                          s: string)
    requires Sound(fs) && DirAt(fs, rel, entries) && e in entries && VisibleEntry(e)
    requires x == EntryFor(CleanParts(rel), e) && AllBelow(fs, [x], HeightAt(fs, rel))
    ensures Count(ExpandEach(fs, [x], HeightAt(fs, rel)), s) == One(Reached(e.node, CleanParts(rel) + [e.name], s))
    decreases HeightAt(fs, rel), 0, 0
  {
    var c := CleanParts(rel);
    MountEntryExact(fs, rel, entries, e);
    CleanRelativeForm(rel);
    EntryPath(c, e);
    hide CleanParts, Sound, Reached, Find, Proper, Join, Expand, AllProper, Count, HeightAt;
    assert ExpandEach(fs, [x][1..], HeightAt(fs, rel)) == [];
    if e.node.Dir? {
      assert x in [x];
      ExpandCount(fs, x.path, s);
      assert Expand(fs, x.path) + [] == Expand(fs, x.path);
    } else {
      CountOne(Entry("", "", false, 0, false), s);
      FileReachesNothing(e.node, c + [e.name], s);
    }
  }

  lemma FileReachesNothing(n: Node, parts: seq<string>, s: string)
    requires !n.Dir?
    ensures !Reached(n, parts, s)
  {
    hide CleanParts, Join;
  }

  /** Below any path without symlinks the expansion shows each thing once, and nothing else. */
  lemma {:induction false} ExpandCount(fs: FileSystem, rel: string, s: string)
    requires Sound(fs) && Find(fs.tree, CleanParts(rel)).Some?
    ensures Count(Expand(fs, rel), s) == One(Reached(Find(fs.tree, CleanParts(rel)).value, CleanParts(rel), s))
    decreases HeightAt(fs, rel), 1, 0
  {
    var c := CleanParts(rel);
    var n := Find(fs.tree, c).value;
    hide CleanParts, Sound, Reached, Find, Proper, Join, AllProper, Count, WellFormed, SafeMountPath, CleanRelative,
         FullPath, EntriesFor, DirAt;
    if n.Dir? {
      var entries := n.entries;
      FoundDir(fs, rel);
      var sorted := Sort(entries, ListedBefore);
      ChildrenExact(fs, rel, entries);
      ListedBelow(fs, rel);
      SortElements(entries, ListedBefore);
      EntryNames(fs, rel, entries);
      FindWellFormed(fs.tree, c);
      SortedNames(entries);
      ExpandEachCount(fs, rel, entries, sorted, s);
      CountShown(c, sorted, s);
      CountAppend(EntriesFor(c, sorted), ExpandEach(fs, EntriesFor(c, sorted), HeightAt(fs, rel)), s);
      ReachedSplit(c, n, s);
    } else {
      SafeBelowRoot(fs, rel);
      CountOne(Entry("", "", false, 0, false), s);
      FileReachesNothing(n, c, s);
    }
  }

  lemma FoundDir(fs: FileSystem, rel: string)
    requires Find(fs.tree, CleanParts(rel)).Some? && Find(fs.tree, CleanParts(rel)).value.Dir?
    ensures DirAt(fs, rel, Find(fs.tree, CleanParts(rel)).value.entries)
  {
  }

  lemma SortedNames(entries: seq<DirEntry>)
    requires NamesDistinct(entries)
    ensures NamesDistinct(Sort(entries, ListedBefore))
  {
    var sorted := Sort(entries, ListedBefore);
    SortPermutes(entries, ListedBefore);
    SortElements(entries, ListedBefore);
    SortDistinct(entries, ListedBefore);
    assert Distinct(entries);
    forall i, j | 0 <= i < j < |sorted| ensures sorted[i].name != sorted[j].name {
      assert sorted[i] in entries && sorted[j] in entries && sorted[i] != sorted[j];
      var a :| 0 <= a < |entries| && entries[a] == sorted[i];
      var b :| 0 <= b < |entries| && entries[b] == sorted[j];
      assert a != b;
    }
  }

  /** Lazy expansion from the root is complete and exact: a path occurs once if it denotes, in the browser's
      form, something below the root with no symlink on its path, and not at all otherwise. */
  lemma ExpansionExact(fs: FileSystem, s: string)
    requires Sound(fs)
    ensures Find(fs.tree, CleanParts("")).Some?
    ensures Count(Expand(fs, ""), s) ==
            One(CleanParts(s) != [] && s == Join(CleanParts(s), '/') && Find(fs.tree, CleanParts(s)).Some?)
  {
    JoinedProper([]);
    assert CleanParts("") == [];
    ExpandCount(fs, "", s);
    assert CleanParts(s)[0..] == CleanParts(s);
  }

  /** HasChildren is true exactly when the listing of that entry would not be empty. */
  lemma HasChildrenExact(fs: FileSystem, rel: string, x: Entry)
    requires Sound(fs) && Find(fs.tree, CleanParts(rel)).Some? && Children(fs, rel).Some? &&
             x in Children(fs, rel).value
    ensures x.hasChildren <==> Children(fs, x.path).Some? && Children(fs, x.path).value != []
    ensures x.isDir <==> Children(fs, x.path).Some?
  {
    var c := CleanParts(rel);
    SafeBelowRoot(fs, rel);
    CleanRelativeForm(rel);
    var entries := Find(fs.tree, c).value.entries;
    ChildrenExact(fs, rel, entries);
    SortElements(entries, ListedBefore);
    EntriesForElements(c, Sort(entries, ListedBefore), x);
    hide CleanParts, Sound, Find, Proper, Join, AllProper, WellFormed, SafeMountPath, CleanRelative, FullPath,
         EntriesFor, Stat;
    var e :| e in entries && VisibleEntry(e) && x == EntryFor(c, e);
    MountEntryExact(fs, rel, entries, e);
    EntryPath(c, e);
    SafeBelowRoot(fs, x.path);
    if e.node.Dir? {
      var below := e.node.entries;
      ChildrenExact(fs, x.path, below);
      SortElements(below, ListedBefore);
      EntriesForEmpty(c + [e.name], Sort(below, ListedBefore));
    }
  }

  lemma {:induction false} EntriesForEmpty(parts: seq<string>, es: seq<DirEntry>)
    ensures EntriesFor(parts, es) != [] <==> exists e :: e in es && VisibleEntry(e)
  {
    if es != [] {
      var init, last := es[..|es| - 1], es[|es| - 1];
      EntriesForEmpty(parts, init);
      assert es == init + [last] && last in es;
      assert forall e :: e in es <==> e in init || e == last;
    }
  }
}
