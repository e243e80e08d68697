/** Python's `sorted`, as an insertion sort under any total order. */
module Sorting {

  ghost predicate TotalOrder<T(!new)>(le: (T, T) -> bool) {
    && (forall a, b :: le(a, b) || le(b, a))
    && (forall a, b, c :: le(a, b) && le(b, c) ==> le(a, c))
  }

  ghost predicate Ordered<T>(s: seq<T>, le: (T, T) -> bool) {
    forall i, j :: 0 <= i < j < |s| ==> le(s[i], s[j])
  }

  function Insert<T>(x: T, s: seq<T>, le: (T, T) -> bool): seq<T> {
    if s == [] || le(x, s[0]) then [x] + s else [s[0]] + Insert(x, s[1..], le)
  }

  function Sort<T>(s: seq<T>, le: (T, T) -> bool): seq<T> {
    if s == [] then [] else Insert(s[0], Sort(s[1..], le), le)
  }

  lemma {:induction false} InsertAdds<T>(x: T, s: seq<T>, le: (T, T) -> bool)
    ensures multiset(Insert(x, s, le)) == multiset{x} + multiset(s)
    ensures forall y :: y in Insert(x, s, le) ==> y == x || y in s
  {
    if !(s == [] || le(x, s[0])) {
      InsertAdds(x, s[1..], le);
      assert s == [s[0]] + s[1..];
    }
  }

  lemma {:induction false} InsertOrdered<T(!new)>(x: T, s: seq<T>, le: (T, T) -> bool)
    requires TotalOrder(le) && Ordered(s, le)
    ensures Ordered(Insert(x, s, le), le)
  {
    if !(s == [] || le(x, s[0])) {
      var r := Insert(x, s[1..], le);
      InsertOrdered(x, s[1..], le);
      InsertAdds(x, s[1..], le);
      forall j | 0 <= j < |r|
        ensures le(s[0], r[j])
      {
        assert r[j] in r;
      }
    }
  }

  lemma {:induction false} SortOrdered<T(!new)>(s: seq<T>, le: (T, T) -> bool)
    requires TotalOrder(le)
    ensures Ordered(Sort(s, le), le)
    ensures multiset(Sort(s, le)) == multiset(s)
  {
    if s != [] {
      SortOrdered(s[1..], le);
      InsertOrdered(s[0], Sort(s[1..], le), le);
      InsertAdds(s[0], Sort(s[1..], le), le);
      assert s == [s[0]] + s[1..];
    }
  }

  ghost predicate Distinct<T>(s: seq<T>) {
    forall i, j :: 0 <= i < j < |s| ==> s[i] != s[j]
  }

  lemma {:induction false} DistinctCounts<T>(s: seq<T>)
    ensures Distinct(s) <==> forall x :: x in s ==> multiset(s)[x] == 1
  {
    if s != [] {
      var rest := s[1..];
      DistinctCounts(rest);
      assert s == [s[0]] + rest;
      assert multiset(s) == multiset{s[0]} + multiset(rest);
      assert s[0] in rest <==> s[0] in multiset(rest);
      DistinctCons(s[0], rest);
      if forall x :: x in s ==> multiset(s)[x] == 1 {
        assert multiset(s)[s[0]] == 1;
        forall x | x in rest
          ensures multiset(rest)[x] == 1
        {
          assert x in s && x in multiset(rest);
        }
      }
    }
  }

  lemma DistinctCons<T>(x: T, rest: seq<T>)
    ensures Distinct([x] + rest) <==> Distinct(rest) && x !in rest
  {
    var s := [x] + rest;
    assert forall j :: 0 <= j < |rest| ==> rest[j] == s[j + 1];
    if Distinct(rest) && x !in rest {
      forall i, j | 0 <= i < j < |s|
        ensures s[i] != s[j]
      {
        assert s[j] == rest[j - 1] && (i > 0 ==> s[i] == rest[i - 1]);
      }
    }
    if x in rest {
      var j :| 0 <= j < |rest| && rest[j] == x;
      assert s[0] == s[j + 1];
    }
  }

  /** Sorting a list keeps its members and repeats none of them. */
  lemma SortKeeps<T(!new)>(s: seq<T>, le: (T, T) -> bool)
    requires TotalOrder(le)
    ensures |Sort(s, le)| == |s| && forall x :: x in Sort(s, le) <==> x in s
    ensures Distinct(s) ==> Distinct(Sort(s, le))
  {
    SortOrdered(s, le);
    var sorted := Sort(s, le);
    forall x
      ensures x in sorted <==> x in s
    {
      assert x in sorted <==> x in multiset(sorted);
      assert x in s <==> x in multiset(s);
    }
    assert |sorted| == |multiset(sorted)| == |multiset(s)| == |s|;
    DistinctCounts(s);
    DistinctCounts(sorted);
  }

  /** The `limit` first members of a set in an order: sorted, and before all that are left out. */
  ghost predicate Best<T(!new)>(cut: seq<T>, all: set<T>, limit: nat, le: (T, T) -> bool) {
    && |cut| == (if |all| < limit then |all| else limit)
    && Distinct(cut) && Ordered(cut, le) && (forall x :: x in cut ==> x in all)
    && forall x, y :: x in cut && y in all && y !in cut ==> le(x, y)
  }

  function Cut<T>(s: seq<T>, limit: nat): seq<T> {
    if |s| <= limit then s else s[..limit]
  }

  /** Sorting a list without repetition and cutting it leaves the best of its members. */
  lemma SortedCut<T(!new)>(s: seq<T>, all: set<T>, limit: nat, le: (T, T) -> bool)
    requires TotalOrder(le) && Distinct(s) && forall x :: x in s <==> x in all
    ensures Best(Cut(Sort(s, le), limit), all, limit, le)
  {
    SortOrdered(s, le);
    SortKeeps(s, le);
    DistinctSize(s, all);
    CutBest(Sort(s, le), all, limit, le);
  }

  lemma CutBest<T(!new)>(sorted: seq<T>, all: set<T>, limit: nat, le: (T, T) -> bool)
    requires Ordered(sorted, le) && Distinct(sorted) && |sorted| == |all| && forall x :: x in sorted <==> x in all
    ensures Best(Cut(sorted, limit), all, limit, le)
  {
    var cut := Cut(sorted, limit);
    forall k | 0 <= k < |cut|
      ensures sorted[k] in cut
    {
      assert cut[k] == sorted[k];
    }
    forall x, y | x in cut && y in all && y !in cut
      ensures le(x, y)
    {
      var i :| 0 <= i < |cut| && cut[i] == x;
      var j :| 0 <= j < |sorted| && sorted[j] == y;
      assert sorted[i] == x;
    }
  }

  lemma {:induction false} DistinctSize<T>(s: seq<T>, all: set<T>)
    requires Distinct(s) && forall x :: x in s <==> x in all
    ensures |s| == |all|
    decreases |s|
  {
    if s == [] {
      assert all == {};
    } else {
      var rest := s[1..];
      assert s == [s[0]] + rest;
      DistinctCons(s[0], rest);
      DistinctSize(rest, all - {s[0]});
    }
  }

  // Python's `sorted` of a set of numbers.

  lemma Pick<T>(s: set<T>) returns (x: T)
    requires s != {}
    ensures x in s
  {
    x :| x in s;
  }

  lemma {:induction false} SubsetCount(a: set<int>, b: set<int>)
    requires a <= b
    ensures |a| <= |b|
  {
    if a != {} {
      var x := Pick(a);
      SubsetCount(a - {x}, b - {x});
    }
  }

  lemma {:induction false} MinimumExists(s: set<int>)
    requires s != {}
    ensures exists m :: m in s && forall x :: x in s ==> m <= x
    decreases |s|
  {
    var y := Pick(s);
    if s != {y} {
      var rest := s - {y};
      MinimumExists(rest);
      var m :| m in rest && forall x :: x in rest ==> m <= x;
      var least := if y < m then y else m;
      assert forall x :: x in s ==> x == y || x in rest;
      assert least in s && forall x :: x in s ==> least <= x;
    } else {
      assert y in s && forall x :: x in s ==> y <= x;
    }
  }

  function Minimum(s: set<int>): (m: int)
    requires s != {}
    ensures m in s && forall x :: x in s ==> m <= x
  {
    MinimumExists(s);
    var m :| m in s && forall x :: x in s ==> m <= x;
    m
  }

  function Ascending(s: set<int>): (r: seq<int>)
    ensures forall x :: x in r <==> x in s
    ensures forall i, j :: 0 <= i < j < |r| ==> r[i] < r[j]
  {
    if s == {} then []
    else
      var m := Minimum(s);
      [m] + Ascending(s - {m})
  }
}
