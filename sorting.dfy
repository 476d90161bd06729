// Python's `sorted(xs, key=...)`: a stable sort by an integer key.  Every sort in
// the program is one of these (a tuple key is encoded as one integer where the
// caller needs it).
module Sorting {

  ghost predicate SortedBy<T>(s: seq<T>, key: T -> int)
  {
    forall i, j :: 0 <= i < j < |s| ==> key(s[i]) <= key(s[j])
  }

  /** Insert x before the first element whose key is not smaller than x's. */
  function Insert<T>(x: T, s: seq<T>, key: T -> int): seq<T>
  {
    if s == [] then [x]
    else if key(x) <= key(s[0]) then [x] + s
    else [s[0]] + Insert(x, s[1..], key)
  }

  /** Insertion sort: an element is placed before every later element with an equal key (stable). */
  function SortBy<T>(s: seq<T>, key: T -> int): seq<T>
  {
    if s == [] then [] else Insert(s[0], SortBy(s[1..], key), key)
  }

  lemma {:induction false} InsertPermutes<T>(x: T, s: seq<T>, key: T -> int)
    ensures multiset(Insert(x, s, key)) == multiset(s) + multiset{x}
    ensures |Insert(x, s, key)| == |s| + 1
  {
    if s != [] && key(x) > key(s[0]) {
      InsertPermutes(x, s[1..], key);
      assert s == [s[0]] + s[1..];
    }
  }

  /** Prefixing a sorted sequence with an element no larger than any of its members keeps it sorted. */
  lemma ConsSorted<T>(y: T, r: seq<T>, key: T -> int)
    requires SortedBy(r, key)
    requires forall z :: z in r ==> key(y) <= key(z)
    ensures SortedBy([y] + r, key)
  {
    var u := [y] + r;
    forall i, j | 0 <= i < j < |u| ensures key(u[i]) <= key(u[j]) {
      assert u[j] == r[j - 1];
      if i > 0 { assert u[i] == r[i - 1]; }
    }
  }

  lemma {:induction false} InsertSorted<T>(x: T, s: seq<T>, key: T -> int)
    requires SortedBy(s, key)
    ensures SortedBy(Insert(x, s, key), key)
  {
    if s == [] {
    } else if key(x) <= key(s[0]) {
      forall z | z in s ensures key(x) <= key(z) {
        var k :| 0 <= k < |s| && s[k] == z;
        if k > 0 { assert key(s[0]) <= key(s[k]); }
      }
      ConsSorted(x, s, key);
    } else {
      var t := s[1..];
      assert SortedBy(t, key);
      InsertSorted(x, t, key);
      InsertPermutes(x, t, key);
      var r := Insert(x, t, key);
      forall z | z in r ensures key(s[0]) <= key(z) {
        assert z in multiset(r);
        if z != x {
          assert z in multiset(t);
          var k :| 0 <= k < |t| && t[k] == z;
          assert s[k + 1] == z;
        }
      }
      ConsSorted(s[0], r, key);
    }
  }

  /** The sort returns a sorted permutation of its input. */
  lemma {:induction false} SortByFacts<T>(s: seq<T>, key: T -> int)
    ensures multiset(SortBy(s, key)) == multiset(s)
    ensures |SortBy(s, key)| == |s|
    ensures SortedBy(SortBy(s, key), key)
  {
    if s != [] {
      SortByFacts(s[1..], key);
      InsertPermutes(s[0], SortBy(s[1..], key), key);
      InsertSorted(s[0], SortBy(s[1..], key), key);
      assert s == [s[0]] + s[1..];
    }
  }

  /** Sorting an already sorted sequence changes nothing. */
  lemma {:induction false} SortBySortedIsIdentity<T>(s: seq<T>, key: T -> int)
    requires SortedBy(s, key)
    ensures SortBy(s, key) == s
  {
    if s != [] {
      assert SortedBy(s[1..], key);
      SortBySortedIsIdentity(s[1..], key);
      if |s| > 1 {
        assert key(s[0]) <= key(s[1..][0]);
      }
    }
  }

  /** Two sorted arrangements of one collection start with elements of equal key. */
  lemma SortedHeads<T>(a: seq<T>, b: seq<T>, key: T -> int)
    requires SortedBy(a, key) && SortedBy(b, key)
    requires multiset(a) == multiset(b) && a != []
    ensures b != [] && key(a[0]) == key(b[0]) && b[0] in a
  {
    assert |b| == |multiset(b)| == |a|;
    assert b[0] in multiset(a) && a[0] in multiset(b);
    var i :| 0 <= i < |a| && a[i] == b[0];
    var j :| 0 <= j < |b| && b[j] == a[0];
    assert key(a[0]) <= key(a[i]);
    assert key(b[0]) <= key(b[j]);
  }

  /** A sorted arrangement of a collection whose members have distinct keys is unique. */
  lemma {:induction false} SortedUnique<T>(a: seq<T>, b: seq<T>, key: T -> int)
    requires SortedBy(a, key) && SortedBy(b, key)
    requires multiset(a) == multiset(b)
    requires forall x, y :: x in a && y in a && key(x) == key(y) ==> x == y
    ensures a == b
  {
    if a == [] {
      assert |b| == |multiset(b)| == 0;
    } else {
      SortedHeads(a, b, key);
      assert a[0] == b[0];
      SameTails(a, b);
      SortedTail(a, key);
      SortedTail(b, key);
      SortedUnique(a[1..], b[1..], key);
    }
  }

  /** Sorting two arrangements of one collection whose members have distinct keys gives one result. */
  lemma SortByUnique<T>(g: seq<T>, h: seq<T>, key: T -> int)
    requires multiset(g) == multiset(h)
    requires forall x, y :: x in g && y in g && key(x) == key(y) ==> x == y
    ensures SortBy(g, key) == SortBy(h, key)
  {
    var a, b := SortBy(g, key), SortBy(h, key);
    SortByFacts(g, key);
    SortByFacts(h, key);
    forall x | x in a ensures x in g {
      assert x in multiset(a);
    }
    SortedUnique(a, b, key);
  }

  lemma SameTails<T>(a: seq<T>, b: seq<T>)
    requires multiset(a) == multiset(b) && a != [] && b != [] && a[0] == b[0]
    ensures multiset(a[1..]) == multiset(b[1..])
  {
    assert a == [a[0]] + a[1..] && b == [b[0]] + b[1..];
    assert multiset(a) == multiset{a[0]} + multiset(a[1..]);
    assert multiset(b) == multiset{b[0]} + multiset(b[1..]);
    assert multiset(a[1..]) == multiset(a) - multiset{a[0]};
    assert multiset(b[1..]) == multiset(b) - multiset{b[0]};
  }

  lemma SortedTail<T>(a: seq<T>, key: T -> int)
    requires SortedBy(a, key) && a != []
    ensures SortedBy(a[1..], key)
  {
  }

  /**
   * Stability: when the input is strictly increasing in a second key `tie`,
   * the output is ordered by `key` and, among equal keys, by `tie`.
   */
  ghost predicate SortedByThen<T>(s: seq<T>, key: T -> int, tie: T -> int)
  {
    forall i, j :: 0 <= i < j < |s| ==>
      key(s[i]) < key(s[j]) || (key(s[i]) == key(s[j]) && tie(s[i]) < tie(s[j]))
  }

  /** The tail of a (key, tie)-ordered sequence is ordered, and its head precedes every member of the tail. */
  lemma SortedThenSplit<T>(s: seq<T>, key: T -> int, tie: T -> int)
    requires s != [] && SortedByThen(s, key, tie)
    ensures SortedByThen(s[1..], key, tie)
    ensures forall z :: z in s[1..] ==> key(s[0]) < key(z) || (key(s[0]) == key(z) && tie(s[0]) < tie(z))
  {
    forall z | z in s[1..] ensures key(s[0]) < key(z) || (key(s[0]) == key(z) && tie(s[0]) < tie(z)) {
      var k :| 0 <= k < |s[1..]| && s[1..][k] == z;
      assert s[k + 1] == z;
    }
  }

  /** Prefixing with an element that precedes every member in (key, tie) order keeps the order. */
  lemma ConsSortedThen<T>(y: T, r: seq<T>, key: T -> int, tie: T -> int)
    requires SortedByThen(r, key, tie)
    requires forall z :: z in r ==> key(y) < key(z) || (key(y) == key(z) && tie(y) < tie(z))
    ensures SortedByThen([y] + r, key, tie)
  {
    var u := [y] + r;
    forall i, j | 0 <= i < j < |u|
      ensures key(u[i]) < key(u[j]) || (key(u[i]) == key(u[j]) && tie(u[i]) < tie(u[j]))
    {
      assert u[j] == r[j - 1];
      if i > 0 { assert u[i] == r[i - 1]; }
    }
  }

  lemma {:induction false} InsertStable<T>(x: T, s: seq<T>, key: T -> int, tie: T -> int)
    requires SortedByThen(s, key, tie)
    requires forall y :: y in s ==> tie(x) < tie(y)
    ensures SortedByThen(Insert(x, s, key), key, tie)
  {
    if s == [] {
    } else if key(x) <= key(s[0]) {
      forall z | z in s ensures key(x) < key(z) || (key(x) == key(z) && tie(x) < tie(z)) {
        var k :| 0 <= k < |s| && s[k] == z;
        if k > 0 { assert key(s[0]) <= key(s[k]); }
      }
      ConsSortedThen(x, s, key, tie);
    } else {
      var t := s[1..];
      assert SortedByThen(t, key, tie);
      InsertStable(x, t, key, tie);
      InsertPermutes(x, t, key);
      var r := Insert(x, t, key);
      forall z | z in r ensures key(s[0]) < key(z) || (key(s[0]) == key(z) && tie(s[0]) < tie(z)) {
        assert z in multiset(r);
        if z != x {
          assert z in multiset(t);
          var k :| 0 <= k < |t| && t[k] == z;
          assert s[k + 1] == z;
        }
      }
      ConsSortedThen(s[0], r, key, tie);
    }
  }

  lemma {:induction false} SortByStable<T>(s: seq<T>, key: T -> int, tie: T -> int)
    requires forall i, j :: 0 <= i < j < |s| ==> tie(s[i]) < tie(s[j])
    ensures SortedByThen(SortBy(s, key), key, tie)
  {
    if s != [] {
      SortByStable(s[1..], key, tie);
      SortByFacts(s[1..], key);
      InsertPermutes(s[0], SortBy(s[1..], key), key);
      forall y | y in SortBy(s[1..], key) ensures tie(s[0]) < tie(y) {
        assert y in multiset(SortBy(s[1..], key));
        assert y in s[1..];
      }
      InsertStable(s[0], SortBy(s[1..], key), key, tie);
    }
  }
}
