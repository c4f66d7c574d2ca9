/** Selection and stable sorting of lists: what a query with a WHERE and an ORDER BY clause does. */
module Lists {

  predicate Distinct<T(==)>(s: seq<T>) {
    forall i, j | 0 <= i < j < |s| :: s[i] != s[j]
  }

  function Filter<T>(p: T -> bool, s: seq<T>): seq<T> {
    if s == [] then []
    else
      var last := |s| - 1;
      Filter(p, s[..last]) + if p(s[last]) then [s[last]] else []
  }

  /** Puts `x` behind everything that is not greater. */
  function Insert<T>(key: T -> int, s: seq<T>, x: T): seq<T> {
    var last := |s| - 1;
    if s == [] || key(s[last]) <= key(x) then s + [x] else Insert(key, s[..last], x) + [s[last]]
  }

  /** Rows with equal keys keep their order. */
  function Sort<T>(key: T -> int, s: seq<T>): seq<T> {
    if s == [] then [] else Insert(key, Sort(key, s[..|s| - 1]), s[|s| - 1])
  }

  ghost predicate Sorted<T>(key: T -> int, s: seq<T>) {
    forall i, j | 0 <= i < j < |s| :: key(s[i]) <= key(s[j])
  }

  lemma {:induction false} FilterMembers<T>(p: T -> bool, s: seq<T>, x: T)
    ensures x in Filter(p, s) <==> x in s && p(x)
  {
    if s != [] {
      FilterMembers(p, s[..|s| - 1], x);
      assert s == s[..|s| - 1] + [s[|s| - 1]];
    }
  }

  lemma {:induction false} InsertMembers<T>(key: T -> int, s: seq<T>, x: T)
    ensures multiset(Insert(key, s, x)) == multiset(s) + multiset{x}
  {
    var last := |s| - 1;
    if s != [] && key(s[last]) > key(x) {
      InsertMembers(key, s[..last], x);
      assert s == s[..last] + [s[last]];
    }
  }

  lemma {:induction false} InsertSorted<T>(key: T -> int, s: seq<T>, x: T)
    requires Sorted(key, s)
    ensures Sorted(key, Insert(key, s, x))
  {
    var last := |s| - 1;
    if s != [] && key(s[last]) > key(x) {
      InsertSorted(key, s[..last], x);
      InsertMembers(key, s[..last], x);
      forall y | y in Insert(key, s[..last], x)
        ensures key(y) <= key(s[last])
      {
        assert y in multiset(s[..last]) + multiset{x};
      }
    }
  }

  /** Sorting gives a sorted permutation. */
  lemma {:induction false} SortCorrect<T>(key: T -> int, s: seq<T>)
    ensures Sorted(key, Sort(key, s))
    ensures multiset(Sort(key, s)) == multiset(s)
  {
    if s != [] {
      hide Insert;
      SortCorrect(key, s[..|s| - 1]);
      InsertMembers(key, Sort(key, s[..|s| - 1]), s[|s| - 1]);
      InsertSorted(key, Sort(key, s[..|s| - 1]), s[|s| - 1]);
      assert s == s[..|s| - 1] + [s[|s| - 1]];
    }
  }

  /** Cutting a sorted list leaves the least on the left. */
  lemma SortedSplits<T>(key: T -> int, s: seq<T>, n: nat)
    requires Sorted(key, s) && n <= |s|
    ensures Sorted(key, s[..n]) && multiset(s[..n]) + multiset(s[n..]) == multiset(s)
    ensures forall a, b | a in s[..n] && b in s[n..] :: key(a) <= key(b)
  {
    assert s == s[..n] + s[n..];
    forall a, b | a in s[..n] && b in s[n..]
      ensures key(a) <= key(b)
    {
      var i :| 0 <= i < n && s[..n][i] == a;
      var j :| 0 <= j < |s| - n && s[n..][j] == b;
    }
  }

  /** Rows with the same key keep their order. */
  lemma SortIsStable<T>(key: T -> int, s: seq<T>, k: int)
    ensures Filter((x: T) => key(x) == k, Sort(key, s)) == Filter((x: T) => key(x) == k, s)
  {
    var same := (x: T) => key(x) == k;
    FilterSort(same, key, s);
    forall x | x in Filter(same, s)
      ensures key(x) == k
    {
      FilterMembers(same, s, x);
    }
    SortEqual(key, Filter(same, s), k);
  }

  lemma {:induction false} SortEqual<T>(key: T -> int, s: seq<T>, k: int)
    requires forall x | x in s :: key(x) == k
    ensures Sort(key, s) == s
  {
    if s != [] {
      var init, x := s[..|s| - 1], s[|s| - 1];
      assert s == init + [x];
      SortEqual(key, init, k);
      assert key(x) == k;
      InsertBehindAll(key, init, x);
    }
  }

  lemma SortMembers<T>(key: T -> int, s: seq<T>, x: T)
    ensures x in Sort(key, s) <==> x in s
  {
    SortCorrect(key, s);
    assert x in Sort(key, s) <==> x in multiset(Sort(key, s));
    assert x in s <==> x in multiset(s);
  }

  lemma SortLength<T>(key: T -> int, s: seq<T>)
    ensures |Sort(key, s)| == |s|
  {
    SortCorrect(key, s);
    assert |multiset(Sort(key, s))| == |multiset(s)|;
  }

  lemma FilterSnoc<T>(p: T -> bool, s: seq<T>, x: T)
    ensures Filter(p, s + [x]) == Filter(p, s) + if p(x) then [x] else []
  {
    assert (s + [x])[..|s|] == s;
  }

  lemma InsertSnoc<T>(key: T -> int, s: seq<T>, y: T, x: T)
    ensures Insert(key, s + [y], x) == if key(y) <= key(x) then s + [y, x] else Insert(key, s, x) + [y]
  {
    assert (s + [y])[..|s|] == s;
    assert s + [y] + [x] == s + [y, x];
  }

  lemma SortSnoc<T>(key: T -> int, s: seq<T>, x: T)
    ensures Sort(key, s + [x]) == Insert(key, Sort(key, s), x)
  {
    assert (s + [x])[..|s|] == s;
  }

  lemma FilterSorted<T>(p: T -> bool, key: T -> int, s: seq<T>, bound: int)
    requires forall x | x in s :: key(x) <= bound
    ensures forall x | x in Filter(p, s) :: key(x) <= bound
  {
    forall x | x in Filter(p, s) ensures key(x) <= bound { FilterMembers(p, s, x); }
  }

  lemma InsertBehindAll<T>(key: T -> int, s: seq<T>, x: T)
    requires forall y | y in s :: key(y) <= key(x)
    ensures Insert(key, s, x) == s + [x]
  {
  }

  lemma {:induction false} FilterInsert<T>(p: T -> bool, key: T -> int, s: seq<T>, x: T)
    requires Sorted(key, s)
    ensures Filter(p, Insert(key, s, x)) == if p(x) then Insert(key, Filter(p, s), x) else Filter(p, s)
  {
    hide Filter, Insert;
    if forall y | y in s :: key(y) <= key(x) {
      InsertBehindAll(key, s, x);
      FilterSnoc(p, s, x);
      FilterSorted(p, key, s, key(x));
      InsertBehindAll(key, Filter(p, s), x);
      assert Filter(p, s) + [] == Filter(p, s);
    } else {
      var init, y := s[..|s| - 1], s[|s| - 1];
      assert s == init + [y];
      assert key(y) > key(x);
      InsertSnoc(key, init, y, x);
      FilterSnoc(p, Insert(key, init, x), y);
      FilterSnoc(p, init, y);
      FilterInsert(p, key, init, x);
      InsertSnoc(key, Filter(p, init), y, x);
      assert Filter(p, init) + [] == Filter(p, init);
      assert Insert(key, Filter(p, init), x) + [] == Insert(key, Filter(p, init), x);
    }
  }

  /** Selecting commutes with sorting. */
  lemma {:induction false} FilterSort<T>(p: T -> bool, key: T -> int, s: seq<T>)
    ensures Filter(p, Sort(key, s)) == Sort(key, Filter(p, s))
  {
    if s != [] {
      var init, x := s[..|s| - 1], s[|s| - 1];
      assert s == init + [x];
      hide Filter, Insert, Sort;
      FilterSort(p, key, init);
      SortCorrect(key, init);
      SortSnoc(key, init, x);
      FilterInsert(p, key, Sort(key, init), x);
      FilterSnoc(p, init, x);
      SortSnoc(key, Filter(p, init), x);
      assert Filter(p, init) + [] == Filter(p, init);
    }
  }

  /** Selecting twice is selecting by both. */
  lemma {:induction false} FilterFilter<T>(p: T -> bool, q: T -> bool, both: T -> bool, s: seq<T>)
    requires forall x :: both(x) <==> p(x) && q(x)
    ensures Filter(p, Filter(q, s)) == Filter(both, s)
  {
    if s != [] {
      var init, x := s[..|s| - 1], s[|s| - 1];
      FilterFilter(p, q, both, init);
      var f := Filter(q, init);
      assert (f + [x])[..|f|] == f;
      assert f + [] == f;
    }
  }

  lemma {:induction false} FilterSame<T>(p: T -> bool, q: T -> bool, s: seq<T>)
    requires forall x | x in s :: p(x) == q(x)
    ensures Filter(p, s) == Filter(q, s)
  {
    if s != [] {
      FilterSame(p, q, s[..|s| - 1]);
    }
  }

  lemma {:induction false} FilterLength<T>(p: T -> bool, q: T -> bool, s: seq<T>)
    requires forall x | x in s && p(x) :: q(x)
    ensures |Filter(p, s)| <= |Filter(q, s)| <= |s|
  {
    if s != [] {
      FilterLength(p, q, s[..|s| - 1]);
    }
  }

  lemma {:induction false} FilterDistinct<T>(p: T -> bool, s: seq<T>)
    requires Distinct(s)
    ensures Distinct(Filter(p, s))
  {
    if s != [] {
      var last := |s| - 1;
      FilterDistinct(p, s[..last]);
      FilterMembers(p, s[..last], s[last]);
    }
  }

  lemma {:induction false} InsertDistinct<T>(key: T -> int, s: seq<T>, x: T)
    requires x !in s && Distinct(s)
    ensures Distinct(Insert(key, s, x))
  {
    var last := |s| - 1;
    if s != [] && key(s[last]) > key(x) {
      InsertDistinct(key, s[..last], x);
      InsertMembers(key, s[..last], x);
      assert s[last] !in multiset(s[..last]) + multiset{x};
      assert s[last] !in Insert(key, s[..last], x);
    }
  }

  lemma {:induction false} SortDistinct<T>(key: T -> int, s: seq<T>)
    requires Distinct(s)
    ensures Distinct(Sort(key, s))
  {
    if s != [] {
      var init, x := s[..|s| - 1], s[|s| - 1];
      SortDistinct(key, init);
      SortMembers(key, init, x);
      InsertDistinct(key, Sort(key, init), x);
      assert Sort(key, s) == Insert(key, Sort(key, init), x);
    }
  }
}
