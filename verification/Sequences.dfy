/** Small facts about the vectors the scheduler passes around: duplicate-free sequences, in-order
    filtering, and removal by search-and-erase. */
module Sequences {

  ghost predicate Distinct<T>(s: seq<T>) {
    forall i, j :: 0 <= i < j < |s| ==> s[i] != s[j]
  }

  function SetOf<T>(s: seq<T>): set<T> {
    set x | x in s
  }

  lemma SomeMember<T>(s: set<T>) returns (x: T)
    requires s != {}
    ensures x in s
  {
    x :| x in s;
  }

  lemma SubsetByMembers(s: set<int>, t: set<int>)
    requires forall x :: x in s ==> x in t
    ensures s <= t
  {
    assert forall x :: x in s ==> x in t;
  }

  lemma SetEqualByMembers(s: set<int>, t: set<int>)
    requires forall x :: x in s <==> x in t
    ensures s == t
  {
    SubsetByMembers(s, t);
    SubsetByMembers(t, s);
  }

  lemma {:induction false} DistinctSize<T>(s: seq<T>)
    ensures |SetOf(s)| <= |s|
    ensures Distinct(s) ==> |SetOf(s)| == |s|
  {
    if s != [] {
      var init, last := s[..|s| - 1], s[|s| - 1];
      DistinctSize(init);
      assert s == init + [last];
      assert SetOf(s) == SetOf(init) + {last};
    }
  }

  /** The numbers below `n` in order. */
  function Range(n: nat): (r: seq<int>)
    ensures |r| == n && Distinct(r)
    ensures forall i :: 0 <= i < n ==> r[i] == i
    ensures forall i :: i in r <==> 0 <= i < n
  {
    if n == 0 then [] else Range(n - 1) + [n - 1]
  }

  /** The elements of `s` that satisfy `p`, in order. */
  function Filter(p: int -> bool, s: seq<int>): (r: seq<int>)
    ensures forall x :: x in r <==> x in s && p(x)
    ensures |r| <= |s|
  {
    if s == [] then []
    else
      var last := s[|s| - 1];
      assert s == s[..|s| - 1] + [last];
      if p(last) then Filter(p, s[..|s| - 1]) + [last] else Filter(p, s[..|s| - 1])
  }

  lemma {:induction false} FilterDistinct(p: int -> bool, s: seq<int>)
    ensures Distinct(s) ==> Distinct(Filter(p, s))
  {
    if s != [] && Distinct(s) {
      var last := s[|s| - 1];
      FilterDistinct(p, s[..|s| - 1]);
      assert last !in s[..|s| - 1];
    }
  }

  lemma {:induction false} FilterAll(p: int -> bool, s: seq<int>)
    ensures Filter(p, s) == s <==> forall x :: x in s ==> p(x)
    ensures |Filter(p, s)| == |s| <==> forall x :: x in s ==> p(x)
  {
    if s != [] {
      FilterAll(p, s[..|s| - 1]);
      assert s == s[..|s| - 1] + [s[|s| - 1]];
    }
  }

  /** Erase the first occurrence of `x`, if there is one. */
  function RemoveFirst(s: seq<int>, x: int): (r: seq<int>)
    ensures x in s ==> |r| == |s| - 1
    ensures x !in s ==> r == s
    ensures forall y :: y in r ==> y in s
    ensures forall y :: y in s && y != x ==> y in r
    ensures Distinct(s) ==> Distinct(r) && x !in r
  {
    if s == [] then []
    else
      assert s == [s[0]] + s[1..];
      assert Distinct(s) ==> s[0] !in s[1..];
      if s[0] == x then s[1..]
      else
        var rest := RemoveFirst(s[1..], x);
        assert Distinct(s) ==> s[0] !in rest && Distinct(rest);
        [s[0]] + rest
  }

  /** Searching the first occurrence and erasing it is `RemoveFirst`. */
  lemma {:induction false} RemoveFirstAt(s: seq<int>, i: nat)
    requires i < |s| && s[i] !in s[..i]
    ensures RemoveFirst(s, s[i]) == s[..i] + s[i + 1..]
  {
    if i > 0 {
      assert s[0] in s[..i];
      assert s[1..][..i - 1] == s[..i][1..];
      RemoveFirstAt(s[1..], i - 1);
    }
  }

  /** Erase each element of `xs` in turn. */
  function RemoveEach(s: seq<int>, xs: seq<int>): (r: seq<int>)
    decreases |xs|
  {
    if xs == [] then s else RemoveEach(RemoveFirst(s, xs[0]), xs[1..])
  }

  lemma {:induction false} RemoveEachDistinct(s: seq<int>, xs: seq<int>)
    requires Distinct(s)
    ensures Distinct(RemoveEach(s, xs))
    ensures |RemoveEach(s, xs)| <= |s| && forall x :: x in RemoveEach(s, xs) <==> x in s && x !in xs
    ensures Distinct(xs) && (forall x :: x in xs ==> x in s) ==> |RemoveEach(s, xs)| == |s| - |xs|
    decreases |xs|
  {
    if xs != [] {
      assert xs == [xs[0]] + xs[1..];
      RemoveEachDistinct(RemoveFirst(s, xs[0]), xs[1..]);
    }
  }

  lemma {:induction false} RemoveEachShrinks(s: seq<int>, xs: seq<int>)
    ensures forall x :: x in RemoveEach(s, xs) ==> x in s
    decreases |xs|
  {
    if xs != [] { RemoveEachShrinks(RemoveFirst(s, xs[0]), xs[1..]); }
  }

  lemma {:induction false} RemoveEachSpares(s: seq<int>, xs: seq<int>)
    ensures forall x :: x in s && x !in xs ==> x in RemoveEach(s, xs)
    decreases |xs|
  {
    if xs != [] {
      assert xs == [xs[0]] + xs[1..];
      RemoveEachSpares(RemoveFirst(s, xs[0]), xs[1..]);
    }
  }

  lemma DistinctPrefix<T>(s: seq<T>, n: nat)
    requires Distinct(s) && n <= |s|
    ensures Distinct(s[..n]) && Distinct(s[n..])
    ensures forall x :: x in s[..n] ==> x in s && x !in s[n..]
    ensures forall x :: x in s[n..] ==> x in s
  {
  }

  lemma DistinctConcat<T>(a: seq<T>, b: seq<T>)
    requires Distinct(a) && Distinct(b)
    requires forall x :: x in a ==> x !in b
    ensures Distinct(a + b)
  {
    var c := a + b;
    forall i, j | 0 <= i < j < |c| ensures c[i] != c[j] {
      if i < |a| {
        assert c[i] in a;
        if j >= |a| { assert c[j] in b; }
      }
    }
  }

  function Least(s: set<int>): (m: int)
    requires s != {}
    ensures m in s && forall x :: x in s ==> m <= x
    decreases |s|
  {
    HasLeast(s);
    var m :| m in s && forall x :: x in s ==> m <= x;
    m
  }

  lemma {:induction false} HasLeast(s: set<int>)
    requires s != {}
    ensures exists m :: m in s && forall x :: x in s ==> m <= x
    decreases |s|
  {
    var y := SomeMember(s);
    var rest := s - {y};
    if rest == {} {
      assert s == {y};
      assert y in s && forall x :: x in s ==> y <= x;
    } else {
      HasLeast(rest);
      var m :| m in rest && forall x :: x in rest ==> m <= x;
      var least := if y < m then y else m;
      forall x | x in s ensures least <= x {
        assert x == y || x in rest;
      }
    }
  }

  /** The elements of a finite set of node or job numbers in ascending order, the order in
      which an ordered set is iterated. */
  function Ascending(s: set<int>): (r: seq<int>)
    decreases |s|
  {
    if s == {} then [] else [Least(s)] + Ascending(s - {Least(s)})
  }

  lemma {:induction false} AscendingEnumerates(s: set<int>)
    ensures forall x :: x in Ascending(s) <==> x in s
    ensures Distinct(Ascending(s)) && |Ascending(s)| == |s|
    ensures forall i, j :: 0 <= i < j < |Ascending(s)| ==> Ascending(s)[i] < Ascending(s)[j]
    decreases |s|
  {
    if s != {} {
      var m := Least(s);
      AscendingEnumerates(s - {m});
      var rest := Ascending(s - {m});
      assert Ascending(s) == [m] + rest;
      forall i | 0 <= i < |rest| ensures m < rest[i] {
        assert rest[i] in rest;
      }
    }
  }

  /** Stable insertion of `x` into a sequence sorted by ascending key. */
  function InsertByKey(s: seq<int>, x: int, key: int -> real): (r: seq<int>)
    ensures multiset(r) == multiset(s) + multiset{x}
  {
    if s == [] || key(s[0]) >= key(x) then
      [x] + s
    else
      assert s == [s[0]] + s[1..];
      [s[0]] + InsertByKey(s[1..], x, key)
  }

  /** A stable sort by ascending key, as `std::stable_sort` gives with `key(a) < key(b)`: an
      element is inserted in front of the later elements with an equal key. */
  function StableSort(s: seq<int>, key: int -> real): (r: seq<int>)
    ensures multiset(r) == multiset(s)
  {
    if s == [] then []
    else
      assert s == [s[0]] + s[1..];
      InsertByKey(StableSort(s[1..], key), s[0], key)
  }

  ghost predicate SortedByKey(s: seq<int>, key: int -> real) {
    forall i, j :: 0 <= i < j < |s| ==> key(s[i]) <= key(s[j])
  }

  lemma {:induction false} InsertByKeySorts(s: seq<int>, x: int, key: int -> real)
    requires SortedByKey(s, key)
    ensures SortedByKey(InsertByKey(s, x, key), key)
  {
    if s != [] && key(s[0]) < key(x) {
      InsertByKeySorts(s[1..], x, key);
      var rest := InsertByKey(s[1..], x, key);
      forall i | 0 <= i < |rest| ensures key(s[0]) <= key(rest[i]) {
        assert rest[i] in multiset(rest);
        assert rest[i] in multiset(s[1..]) || rest[i] == x;
        if rest[i] in multiset(s[1..]) {
          var k :| 0 <= k < |s[1..]| && s[1..][k] == rest[i];
          assert key(s[0]) <= key(s[k + 1]);
        }
      }
    }
  }

  lemma {:induction false} StableSortSorts(s: seq<int>, key: int -> real)
    ensures SortedByKey(StableSort(s, key), key)
  {
    if s != [] {
      StableSortSorts(s[1..], key);
      InsertByKeySorts(StableSort(s[1..], key), s[0], key);
    }
  }

  /** The elements with a given key, in order. */
  function WithKey(s: seq<int>, key: int -> real, value: real): seq<int> {
    if s == [] then [] else if key(s[0]) == value then [s[0]] + WithKey(s[1..], key, value) else WithKey(s[1..], key, value)
  }

  lemma {:induction false} InsertByKeyIsStable(s: seq<int>, x: int, key: int -> real, value: real)
    ensures WithKey(InsertByKey(s, x, key), key, value) == if key(x) == value then [x] + WithKey(s, key, value) else WithKey(s, key, value)
  {
    var r := InsertByKey(s, x, key);
    if s == [] || key(s[0]) >= key(x) {
      assert r[1..] == s;
    } else {
      InsertByKeyIsStable(s[1..], x, key, value);
      assert r[1..] == InsertByKey(s[1..], x, key);
    }
  }

  /** Elements with equal keys keep their order. */
  lemma {:induction false} StableSortIsStable(s: seq<int>, key: int -> real, value: real)
    ensures WithKey(StableSort(s, key), key, value) == WithKey(s, key, value)
  {
    if s != [] {
      StableSortIsStable(s[1..], key, value);
      InsertByKeyIsStable(StableSort(s[1..], key), s[0], key, value);
    }
  }

  lemma StableSortMembers(s: seq<int>, key: int -> real)
    ensures forall x :: x in StableSort(s, key) <==> x in s
    ensures |StableSort(s, key)| == |s|
    ensures Distinct(s) ==> Distinct(StableSort(s, key))
  {
    SameMultiset(StableSort(s, key), s);
  }

  lemma SameMultiset(a: seq<int>, b: seq<int>)
    requires multiset(a) == multiset(b)
    ensures |a| == |b|
    ensures forall x :: x in a <==> x in b
    ensures Distinct(b) ==> Distinct(a)
  {
    assert |multiset(a)| == |multiset(b)|;
    forall x ensures x in a <==> x in b {
      assert x in a <==> x in multiset(a);
      assert x in b <==> x in multiset(b);
    }
    if Distinct(b) {
      assert SetOf(a) == SetOf(b);
      DistinctSize(b);
      SizeImpliesDistinct(a);
    }
  }

  lemma {:induction false} SizeImpliesDistinct<T>(s: seq<T>)
    requires |SetOf(s)| == |s|
    ensures Distinct(s)
  {
    if s != [] {
      var init, last := s[..|s| - 1], s[|s| - 1];
      assert s == init + [last];
      assert SetOf(s) == SetOf(init) + {last};
      DistinctSize(init);
      SizeImpliesDistinct(init);
    }
  }

  lemma IndexIn(s: seq<int>, x: int) returns (i: nat)
    requires x in s
    ensures i < |s| && s[i] == x
  {
    i :| 0 <= i < |s| && s[i] == x;
  }

  lemma {:induction false} FilterNone(p: int -> bool, ns: seq<int>)
    requires forall n :: n in ns ==> !p(n)
    ensures Filter(p, ns) == []
  {
    if ns != [] {
      assert ns[|ns| - 1] in ns;
      FilterNone(p, ns[..|ns| - 1]);
    }
  }

  lemma {:induction false} SameFilter(p: int -> bool, q: int -> bool, s: seq<int>)
    requires forall x :: x in s ==> p(x) == q(x)
    ensures Filter(p, s) == Filter(q, s)
  {
    if s != [] {
      assert s[|s| - 1] in s;
      SameFilter(p, q, s[..|s| - 1]);
    }
  }

  ghost predicate AscendingOrder(s: seq<int>) {
    forall i, k :: 0 <= i < k < |s| ==> s[i] < s[k]
  }

  lemma {:induction false} FilterAscends(p: int -> bool, s: seq<int>)
    requires AscendingOrder(s)
    ensures AscendingOrder(Filter(p, s))
  {
    if s != [] {
      var init, last := s[..|s| - 1], s[|s| - 1];
      FilterAscends(p, init);
      forall x | x in Filter(p, init) ensures x < last {
        assert x in init;
      }
      var f := Filter(p, init);
      assert forall i :: 0 <= i < |f| ==> f[i] in f;
    }
  }

  // ---- Order ------------------------------------------------------------------------------------

  ghost predicate ComesBefore(s: seq<int>, x: int, y: int) {
    exists p, q :: 0 <= p < q < |s| && s[p] == x && s[q] == y
  }

  /** What comes first in the part comes first in the whole. */
  ghost predicate ListedInOrder(part: seq<int>, whole: seq<int>) {
    forall i, k :: 0 <= i < k < |part| ==> ComesBefore(whole, part[i], part[k])
  }

  lemma LastComesLast(init: seq<int>, last: int)
    ensures forall x :: x in init ==> ComesBefore(init + [last], x, last)
  {
    forall x | x in init ensures ComesBefore(init + [last], x, last) {
      var p := IndexIn(init, x);
      assert (init + [last])[p] == x && (init + [last])[|init|] == last;
    }
  }

  lemma WithinLonger(a: seq<int>, b: seq<int>, c: seq<int>, x: int, y: int)
    requires ComesBefore(b, x, y)
    ensures ComesBefore(a + b + c, x, y)
  {
    var p, q :| 0 <= p < q < |b| && b[p] == x && b[q] == y;
    assert (a + b + c)[|a| + p] == x && (a + b + c)[|a| + q] == y;
  }

  lemma OneMoreInOrder(part: seq<int>, init: seq<int>, last: int)
    requires ListedInOrder(part, init) && forall x :: x in part ==> x in init
    ensures ListedInOrder(part, init + [last]) && ListedInOrder(part + [last], init + [last])
  {
    LastComesLast(init, last);
    var longer := part + [last];
    forall i, k | 0 <= i < k < |longer| ensures ComesBefore(init + [last], longer[i], longer[k]) {
      assert longer[i] == part[i] && part[i] in part;
      if k < |part| {
        WithinLonger([], init, [last], part[i], part[k]);
        assert [] + init + [last] == init + [last];
      }
    }
    hide ComesBefore;
    assert forall i :: 0 <= i < |part| ==> longer[i] == part[i];
  }

  lemma {:induction false} FilterKeepsOrder(p: int -> bool, s: seq<int>)
    ensures ListedInOrder(Filter(p, s), s)
  {
    if s != [] {
      var init, last := s[..|s| - 1], s[|s| - 1];
      FilterKeepsOrder(p, init);
      assert s == init + [last];
      hide ListedInOrder;
      OneMoreInOrder(Filter(p, init), init, last);
    }
  }

  ghost predicate Before(x: int, y: int, key: int -> real) {
    key(x) < key(y) || (key(x) == key(y) && x < y)
  }

  ghost predicate SortedStably(s: seq<int>, key: int -> real) {
    forall i, k :: 0 <= i < k < |s| ==> Before(s[i], s[k], key)
  }

  lemma FirstSortsStably(x: int, s: seq<int>, key: int -> real)
    requires SortedStably(s, key) && forall y :: y in s ==> Before(x, y, key)
    ensures SortedStably([x] + s, key)
  {
    forall i, k | 0 <= i < k < |[x] + s| ensures Before(([x] + s)[i], ([x] + s)[k], key) {
      assert s[k - 1] in s;
      if i > 0 { assert Before(s[i - 1], s[k - 1], key); }
    }
  }

  lemma HeadComesFirst(s: seq<int>, key: int -> real)
    requires SortedStably(s, key) && s != []
    ensures SortedStably(s[1..], key) && forall y :: y in s[1..] ==> y in s && Before(s[0], y, key)
  {
    forall y | y in s[1..] ensures y in s && Before(s[0], y, key) {
      var k := IndexIn(s[1..], y);
      assert s[k + 1] == y;
    }
  }

  lemma {:induction false} InsertSortsStably(s: seq<int>, x: int, key: int -> real)
    requires SortedStably(s, key) && forall y :: y in s ==> x < y
    ensures SortedStably(InsertByKey(s, x, key), key)
  {
    if s == [] {
      FirstSortsStably(x, s, key);
    } else {
      HeadComesFirst(s, key);
      hide SortedStably;
      var rest := InsertByKey(s[1..], x, key);
      if key(s[0]) >= key(x) {
        assert s == [s[0]] + s[1..];
        FirstSortsStably(x, s, key);
      } else {
        InsertSortsStably(s[1..], x, key);
        forall y | y in rest ensures Before(s[0], y, key) {
          assert y in multiset(rest) && (y != x ==> y in multiset(s[1..]));
        }
        FirstSortsStably(s[0], rest, key);
      }
    }
  }

  /** Sorting an ascending list by key breaks ties by number. */
  lemma {:induction false} SortsStably(s: seq<int>, key: int -> real)
    requires AscendingOrder(s)
    ensures SortedStably(StableSort(s, key), key)
  {
    if s != [] {
      SortsStably(s[1..], key);
      StableSortMembers(s[1..], key);
      InsertSortsStably(StableSort(s[1..], key), s[0], key);
    }
  }
}
