/** A stable insertion sort, standing for sort.Strings, sort.Slice and sort.SliceStable. */
module Sorting {

  function Insert<T>(x: T, s: seq<T>, less: (T, T) -> bool): seq<T> {
    if s == [] || !less(s[0], x) then [x] + s else [s[0]] + Insert(x, s[1..], less)
  }

  function Sort<T>(s: seq<T>, less: (T, T) -> bool): seq<T> {
    if s == [] then [] else Insert(s[0], Sort(s[1..], less), less)
  }

  lemma {:induction false} InsertPermutes<T>(x: T, s: seq<T>, less: (T, T) -> bool)
    ensures multiset(Insert(x, s, less)) == multiset{x} + multiset(s)
  {
    if s != [] && less(s[0], x) {
      InsertPermutes(x, s[1..], less);
      assert s == [s[0]] + s[1..];
    }
  }

  lemma {:induction false} SortPermutes<T>(s: seq<T>, less: (T, T) -> bool)
    ensures multiset(Sort(s, less)) == multiset(s)
  {
    if s != [] {
      SortPermutes(s[1..], less);
      InsertPermutes(s[0], Sort(s[1..], less), less);
      assert s == [s[0]] + s[1..];
    }
  }

  lemma SortElement<T>(s: seq<T>, less: (T, T) -> bool, x: T)
    ensures x in Sort(s, less) <==> x in s
  {
    SortPermutes(s, less);
    assert x in multiset(Sort(s, less)) <==> x in multiset(s);
  }

  lemma SortElements<T>(s: seq<T>, less: (T, T) -> bool)
    ensures |Sort(s, less)| == |s|
    ensures forall x :: x in Sort(s, less) <==> x in s
  {
    SortPermutes(s, less);
    assert |multiset(Sort(s, less))| == |multiset(s)|;
    forall x ensures x in Sort(s, less) <==> x in s {
      assert x in multiset(Sort(s, less)) <==> x in multiset(s);
    }
  }

  ghost predicate Distinct<T>(s: seq<T>) {
    forall i, j :: 0 <= i < j < |s| ==> s[i] != s[j]
  }

  lemma {:induction false} DistinctMultiset<T>(s: seq<T>)
    ensures Distinct(s) <==> (forall x :: multiset(s)[x] <= 1)
  {
    if s != [] {
      var t := s[1..];
      assert s == [s[0]] + t;
      DistinctMultiset(t);
      assert forall x :: multiset(s)[x] == multiset(t)[x] + (if x == s[0] then 1 else 0);
      if Distinct(s) {
        assert s[0] !in t;
        assert Distinct(t);
      }
      if forall x :: multiset(s)[x] <= 1 {
        assert multiset(s)[s[0]] <= 1;
        assert s[0] !in multiset(t);
        forall x ensures multiset(t)[x] <= 1 {
          assert multiset(s)[x] <= 1;
        }
        forall i, j | 0 <= i < j < |s| ensures s[i] != s[j] {
          assert s[j] == t[j - 1];
          if i > 0 { assert s[i] == t[i - 1]; }
        }
      }
    }
  }

  lemma SortDistinct<T>(s: seq<T>, less: (T, T) -> bool)
    ensures Distinct(Sort(s, less)) <==> Distinct(s)
  {
    SortPermutes(s, less);
    DistinctMultiset(s);
    DistinctMultiset(Sort(s, less));
  }

  /** Every element stands before each later one in the order r. */
  ghost predicate Ordered<T>(s: seq<T>, r: (T, T) -> bool) {
    forall i, j :: 0 <= i < j < |s| ==> r(s[i], s[j])
  }

  ghost predicate Transitive<T>(s: seq<T>, r: (T, T) -> bool) {
    forall x, y, z :: x in s && y in s && z in s && r(x, y) && r(y, z) ==> r(x, z)
  }

  lemma {:induction false} InsertOrders<T>(x: T, s: seq<T>, less: (T, T) -> bool, r: (T, T) -> bool)
    requires Ordered(s, r) && Transitive([x] + s, r)
    requires forall y :: y in s ==> if less(y, x) then r(y, x) else r(x, y)
    ensures Ordered(Insert(x, s, less), r)
  {
    hide Transitive;
    if s != [] {
      var h, t := s[0], s[1..];
      assert s == [h] + t;
      if less(h, x) {
        TransitiveTail(x, s, r);
        InsertOrders(x, t, less, r);
        InsertPermutes(x, t, less);
        var u := Insert(x, t, less);
        forall i | 0 <= i < |u| ensures r(h, u[i]) {
          assert u[i] in multiset(u);
          assert u[i] == x || u[i] in t;
        }
      } else {
        BeforeAll(x, s, r);
      }
    }
  }

  lemma TransitiveTail<T>(x: T, s: seq<T>, r: (T, T) -> bool)
    requires s != [] && Transitive([x] + s, r)
    ensures Transitive([x] + s[1..], r)
  {
    assert forall y :: y in [x] + s[1..] ==> y in [x] + s;
  }

  lemma BeforeAll<T>(x: T, s: seq<T>, r: (T, T) -> bool)
    requires s != [] && Ordered(s, r) && Transitive([x] + s, r) && r(x, s[0])
    ensures forall i :: 0 <= i < |s| ==> r(x, s[i])
  {
    forall i | 0 <= i < |s| ensures r(x, s[i]) {
      assert x in [x] + s && s[0] in [x] + s && s[i] in [x] + s;
      assert i == 0 || r(s[0], s[i]);
    }
  }

  lemma InTail<T>(s: seq<T>, y: T)
    requires s != [] && y in s[1..]
    ensures exists j :: 0 < j < |s| && s[j] == y
  {
    var j :| 0 <= j < |s[1..]| && s[1..][j] == y;
    assert s[j + 1] == y;
  }

  lemma {:induction false} SortOrders<T>(s: seq<T>, less: (T, T) -> bool, r: (T, T) -> bool)
    requires Transitive(s, r)
    requires forall i, j :: 0 <= i < |s| && 0 <= j < |s| && i != j ==>
               if less(s[i], s[j]) then r(s[i], s[j]) else r(s[j], s[i])
    ensures Ordered(Sort(s, less), r)
  {
    if s != [] {
      var t := s[1..];
      SortOrders(t, less, r);
      var u := Sort(t, less);
      forall y | y in u ensures y in s && if less(y, s[0]) then r(y, s[0]) else r(s[0], y) {
        SortElement(t, less, y);
        InTail(s, y);
      }
      InsertOrders(s[0], u, less, r);
    }
  }

  /** Two lists with the same elements that are strictly ordered the same way are the same list. */
  lemma {:induction false} OrderedUnique<T>(a: seq<T>, b: seq<T>, r: (T, T) -> bool)
    requires Ordered(a, r) && Ordered(b, r)
    requires forall x, y :: x in a && y in a ==> !(r(x, y) && r(y, x))
    requires forall x :: x in a ==> !r(x, x)
    requires forall x :: x in a <==> x in b
    ensures a == b
  {
    assert a != [] ==> a[0] in b;
    assert b != [] ==> b[0] in a;
    if a != [] {
      SameFirst(a, b, r);
      var a', b' := a[1..], b[1..];
      assert a == [a[0]] + a' && b == [b[0]] + b';
      assert a[0] !in a' by {
        assert forall i :: 0 < i < |a| ==> r(a[0], a[i]);
      }
      assert b[0] !in b' by {
        assert forall i :: 0 < i < |b| ==> r(b[0], b[i]);
      }
      forall x ensures x in a' <==> x in b' {
        assert x in a <==> x == a[0] || x in a';
        assert x in b <==> x == b[0] || x in b';
      }
      OrderedUnique(a', b', r);
    }
  }

  lemma SameFirst<T>(a: seq<T>, b: seq<T>, r: (T, T) -> bool)
    requires a != [] && b != [] && Ordered(a, r) && Ordered(b, r)
    requires b[0] in a && a[0] in b && !(r(a[0], b[0]) && r(b[0], a[0]))
    ensures a[0] == b[0]
  {
    var i :| 0 <= i < |a| && a[i] == b[0];
    var j :| 0 <= j < |b| && b[j] == a[0];
  }
}
