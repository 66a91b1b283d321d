/** Choosing mounts, keeping to a root and listing a directory: the cases and the order. */
module MountLaws {
  import opened Options
  import opened Text
  import opened Sorting
  import opened Paths
  import opened Mounts
  import opened MountTree

  // ----- choosing a mount -----

  /** Of the fitting mounts with the longest cleaned path the first is chosen. */
  lemma {:induction false} BestIsFirst(side: Side, ms: seq<Mount>, path: string)
    ensures var b := Best(side, ms, path);
            b.Some? ==>
              exists i :: 0 <= i < |ms| && ms[i] == b.value
                          && (forall j :: 0 <= j < i && Fits(side, ms[j], path) ==>
                                |KeyAt(side, ms[j])| < |KeyAt(side, b.value)|)
  {
    hide Fits, KeyAt;
    if ms != [] {
      var n := |ms| - 1;
      var init := ms[..n];
      BestIsFirst(side, init, path);
      BestIsLongest(side, init, path);
      var before, b := Best(side, init, path), Best(side, ms, path);
      assert forall j :: 0 <= j < n ==> init[j] == ms[j] && ms[j] in init;
      if before.Some? && b == before {
        var i :| 0 <= i < |init| && init[i] == b.value &&
                 (forall j :: 0 <= j < i && Fits(side, init[j], path) ==>
                    |KeyAt(side, init[j])| < |KeyAt(side, b.value)|);
        assert ms[i] == b.value;
      } else if b.Some? {
        assert ms[n] == b.value;
      }
    }
  }

  // ----- keeping to a root -----

  /** When not both paths resolve: no root, or one that cannot be resolved, is turned away, but for a missing root
      itself; a path that cannot be resolved is let through. */
  lemma SafeMountPathOtherwise(givenRoot: string, relativePath: string, eval: string -> Resolved)
    ensures var root, clean := Trim(givenRoot, IsSpace), CleanRelative(relativePath);
            var full, r := FullPath(root, clean), SafeMountPath(givenRoot, relativePath, eval);
            && (root == "" ==> r == Denied)
            && (root != "" && eval(root) == Failed ==> r == Denied)
            && (root != "" && eval(root) == Missing ==> r == if clean == "" then Safe(root, "") else Denied)
            && (root != "" && eval(root).To? && !eval(full).To? ==> r == Safe(full, clean))
            && (root != "" && eval(root).To? && eval(full).To? && Rooted(eval(root).path) != Rooted(eval(full).path) ==>
                  r == Denied)
  {
    hide FullPath, CleanRelative, Trim;
  }

  // ----- listing -----

  /** Directories first, then by name, case aside. */
  predicate ListOrder(aDir: bool, aName: string, bDir: bool, bName: string) {
    if aDir != bDir then aDir else !LexLess(ToLower(bName), ToLower(aName))
  }

  predicate InOrder(a: DirEntry, b: DirEntry) {
    ListOrder(a.node.Dir?, a.name, b.node.Dir?, b.name)
  }

  lemma NotLessTransitive(a: string, b: string, c: string)
    requires !LexLess(b, a) && !LexLess(c, b)
    ensures !LexLess(c, a)
  {
    LexTotal(a, b);
    LexTotal(b, c);
    LexTotal(a, c);
    if LexLess(c, a) {
      if a == b {
      } else if b == c {
      } else {
        LexTransitive(a, b, c);
      }
    }
  }

  lemma SortedInOrder(es: seq<DirEntry>)
    ensures Ordered(Sort(es, ListedBefore), InOrder)
  {
    hide LexLess, ToLower;
    forall a: DirEntry, b: DirEntry, c: DirEntry | InOrder(a, b) && InOrder(b, c) ensures InOrder(a, c) {
      if a.node.Dir? == b.node.Dir? == c.node.Dir? {
        NotLessTransitive(ToLower(a.name), ToLower(b.name), ToLower(c.name));
      }
    }
    forall a: DirEntry, b: DirEntry ensures if ListedBefore(a, b) then InOrder(a, b) else InOrder(b, a) {
      LexTotal(ToLower(a.name), ToLower(b.name));
    }
    SortOrders(es, ListedBefore, InOrder);
  }

  /** x is how the entry e of the directory under these components is shown. */
  predicate Shows(parts: seq<string>, e: DirEntry, x: Entry) {
    && x.name == e.name && x.path == Join(parts + [e.name], '/') && x.isDir == e.node.Dir? && x.size == e.node.size
    && x.hasChildren == (e.node.Dir? && exists c :: c in e.node.entries && !c.node.Symlink?)
  }

  lemma EntryForShows(parts: seq<string>, e: DirEntry)
    ensures forall x :: x == EntryFor(parts, e) <==> Shows(parts, e, x)
  {
  }

  predicate Before(x: Entry, y: Entry) {
    x.name != y.name && ListOrder(x.isDir, x.name, y.isDir, y.name)
  }

  lemma {:induction false} EntriesInOrder(parts: seq<string>, es: seq<DirEntry>)
    requires Ordered(es, InOrder) && NamesDistinct(es)
    ensures Ordered(EntriesFor(parts, es), Before)
  {
    hide LexLess, ToLower, HasVisible, Join;
    if es != [] {
      var init, last := es[..|es| - 1], es[|es| - 1];
      EntriesInOrder(parts, init);
      var before, x := EntriesFor(parts, init), EntryFor(parts, last);
      forall i | 0 <= i < |before| ensures Before(before[i], x) {
        EntriesForElements(parts, init, before[i]);
        assert before[i] in before;
        var e :| e in init && VisibleEntry(e) && before[i] == EntryFor(parts, e);
        var k :| 0 <= k < |init| && init[k] == e;
        assert es[k] == e && InOrder(es[k], es[|es| - 1]) && es[k].name != es[|es| - 1].name;
      }
    }
  }

  /** The listing of a directory reached without symlinks: each of its entries that is no symlink, once, with its
      size and whether it has something to show, directories first and then by name. */
  lemma ListingExact(fs: FileSystem, relativePath: string, entries: seq<DirEntry>)
    requires Sound(fs) && DirAt(fs, relativePath, entries)
    ensures Children(fs, relativePath).Some?
    ensures forall x :: x in Children(fs, relativePath).value <==>
                        exists e :: e in entries && !e.node.Symlink? && Shows(CleanParts(relativePath), e, x)
    ensures Ordered(Children(fs, relativePath).value, Before)
  {
    hide CleanParts, Sound, SafeMountPath, EntriesFor, EntriesOf, EntryFor, Shows, Before, InOrder, ListedBefore;
    var parts, sorted := CleanParts(relativePath), Sort(entries, ListedBefore);
    ChildrenExact(fs, relativePath, entries);
    SortElements(entries, ListedBefore);
    SortedInOrder(entries);
    EntryNames(fs, relativePath, entries);
    SortedNames(entries);
    EntriesInOrder(parts, sorted);
    forall x ensures x in EntriesFor(parts, sorted) <==>
                     exists e :: e in entries && !e.node.Symlink? && Shows(parts, e, x)
    {
      EntriesForElements(parts, sorted, x);
      forall e | e in entries ensures x == EntryFor(parts, e) <==> Shows(parts, e, x) {
        EntryForShows(parts, e);
      }
    }
  }

  /** Nothing is listed exactly when the path is turned away or leads to no directory. */
  lemma NotListed(fs: FileSystem, relativePath: string)
    ensures Children(fs, relativePath).None? <==>
            match SafeMountPath(fs.root, relativePath, Evaluator(fs))
            case Denied => true
            case Safe(full, _) => Stat(fs, full).None? || !Stat(fs, full).value.Dir?
  {
    hide SafeMountPath, Stat;
  }
}
