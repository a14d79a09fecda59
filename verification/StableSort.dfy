/** The stable sort by an integer key (`sort_by_key`) used on shards and on part references. */
module StableSort {

  ghost predicate Ascending<T(!new)>(key: T -> int, s: seq<T>) {
    forall i, j :: 0 <= i < j < |s| ==> key(s[i]) <= key(s[j])
  }

  ghost predicate StrictlyAscending<T(!new)>(key: T -> int, s: seq<T>) {
    forall i, j :: 0 <= i < j < |s| ==> key(s[i]) < key(s[j])
  }

  ghost predicate Below<T(!new)>(key: T -> int, s: seq<T>, bound: int) {
    forall i :: 0 <= i < |s| ==> key(s[i]) <= bound
  }

  /** Places `x` behind every element of `s` whose key does not exceed its own. */
  function Insert<T(!new)>(key: T -> int, x: T, s: seq<T>): seq<T> {
    if s == [] || key(s[|s| - 1]) <= key(x) then s + [x]
    else Insert(key, x, s[..|s| - 1]) + [s[|s| - 1]]
  }

  function SortByKey<T(!new)>(key: T -> int, s: seq<T>): seq<T> {
    if s == [] then [] else Insert(key, s[|s| - 1], SortByKey(key, s[..|s| - 1]))
  }

  lemma WithoutLast<T>(s: seq<T>)
    requires s != []
    ensures s == s[..|s| - 1] + [s[|s| - 1]]
    ensures multiset(s) == multiset(s[..|s| - 1]) + multiset{s[|s| - 1]}
    ensures multiset(s[..|s| - 1]) == multiset(s) - multiset{s[|s| - 1]}
  {
    assert s == s[..|s| - 1] + [s[|s| - 1]];
  }

  lemma {:induction false} InsertAdds<T(!new)>(key: T -> int, x: T, s: seq<T>)
    ensures multiset(Insert(key, x, s)) == multiset(s) + multiset{x}
  {
    if s != [] && key(s[|s| - 1]) > key(x) {
      var n := |s| - 1;
      InsertAdds(key, x, s[..n]);
      assert s == s[..n] + [s[n]];
    }
  }

  lemma {:induction false} InsertSorts<T(!new)>(key: T -> int, x: T, s: seq<T>)
    requires Ascending(key, s)
    ensures Ascending(key, Insert(key, x, s))
    ensures forall b :: key(x) <= b && (s != [] ==> key(s[|s| - 1]) <= b) ==> Below(key, Insert(key, x, s), b)
  {
    if s != [] && key(s[|s| - 1]) > key(x) {
      InsertSorts(key, x, s[..|s| - 1]);
      assert Below(key, Insert(key, x, s[..|s| - 1]), key(s[|s| - 1]));
    }
  }

  lemma {:induction false} SortSorts<T(!new)>(key: T -> int, s: seq<T>)
    ensures Ascending(key, SortByKey(key, s))
    ensures multiset(SortByKey(key, s)) == multiset(s)
  {
    if s != [] {
      var n := |s| - 1;
      SortSorts(key, s[..n]);
      InsertSorts(key, s[n], SortByKey(key, s[..n]));
      InsertAdds(key, s[n], SortByKey(key, s[..n]));
      WithoutLast(s);
    }
  }

  lemma {:induction false} SortOfAscending<T(!new)>(key: T -> int, s: seq<T>)
    requires Ascending(key, s)
    ensures SortByKey(key, s) == s
  {
    if s != [] {
      var n := |s| - 1;
      SortOfAscending(key, s[..n]);
      assert s == s[..n] + [s[n]];
    }
  }

  lemma SameLast<T(!new)>(key: T -> int, a: seq<T>, b: seq<T>)
    requires StrictlyAscending(key, a) && Ascending(key, b) && multiset(a) == multiset(b)
    requires a != [] && b != []
    ensures a[|a| - 1] == b[|b| - 1]
  {
    var x, y := a[|a| - 1], b[|b| - 1];
    assert x in multiset(b) && y in multiset(a);
    assert key(x) <= key(y);
  }

  /** A strictly ascending list is the only ascending arrangement of its elements. */
  lemma {:induction false} AscendingUnique<T(!new)>(key: T -> int, a: seq<T>, b: seq<T>)
    requires StrictlyAscending(key, a) && Ascending(key, b) && multiset(a) == multiset(b)
    ensures a == b
  {
    assert |a| == |multiset(a)| && |b| == |multiset(b)|;
    if a != [] {
      var n := |a| - 1;
      SameLast(key, a, b);
      WithoutLast(a);
      WithoutLast(b);
      AscendingUnique(key, a[..n], b[..n]);
    }
  }

  /** Sorting restores a strictly ascending list from every arrangement of it. */
  lemma SortRestores<T(!new)>(key: T -> int, listed: seq<T>, ordered: seq<T>)
    requires StrictlyAscending(key, ordered) && multiset(listed) == multiset(ordered)
    ensures SortByKey(key, listed) == ordered
  {
    SortSorts(key, listed);
    AscendingUnique(key, ordered, SortByKey(key, listed));
  }

  /** The elements of one key, in their order. */
  function WithKey<T(!new)>(key: T -> int, s: seq<T>, k: int): seq<T> {
    if s == [] then []
    else WithKey(key, s[..|s| - 1], k) + if key(s[|s| - 1]) == k then [s[|s| - 1]] else []
  }

  lemma WithKeySnoc<T(!new)>(key: T -> int, s: seq<T>, x: T, k: int)
    ensures WithKey(key, s + [x], k) == WithKey(key, s, k) + if key(x) == k then [x] else []
  {
    assert (s + [x])[..|s|] == s;
  }

  lemma {:induction false} InsertKeepsOrder<T(!new)>(key: T -> int, x: T, s: seq<T>, k: int)
    ensures WithKey(key, Insert(key, x, s), k) == WithKey(key, s, k) + if key(x) == k then [x] else []
  {
    if s == [] || key(s[|s| - 1]) <= key(x) {
      WithKeySnoc(key, s, x, k);
    } else {
      var front, last := s[..|s| - 1], s[|s| - 1];
      InsertKeepsOrder(key, x, front, k);
      WithKeySnoc(key, Insert(key, x, front), last, k);
    }
  }

  /** Elements of equal key keep their order. */
  lemma {:induction false} SortIsStable<T(!new)>(key: T -> int, s: seq<T>, k: int)
    ensures WithKey(key, SortByKey(key, s), k) == WithKey(key, s, k)
  {
    if s != [] {
      var n := |s| - 1;
      SortIsStable(key, s[..n], k);
      InsertKeepsOrder(key, s[n], SortByKey(key, s[..n]), k);
    }
  }
}
