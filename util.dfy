// Shared helpers: optional results, duplicate-free sequences, and the
// lexicographic combination order that Python's itertools.combinations uses.
module Util {

  datatype Option<T> = None | Some(value: T)

  datatype Result<T, E> = Ok(value: T) | Err(error: E)

  /** No element occurs twice. */
  predicate NoDup<T(==)>(s: seq<T>)
  {
    forall i, j :: 0 <= i < j < |s| ==> s[i] != s[j]
  }

  /** The elements of `xs` that lie in `keep`, in their original order. */
  function Filter<T(==,!new)>(xs: seq<T>, keep: set<T>): (r: seq<T>)
    ensures |r| <= |xs|
    ensures forall x {:trigger x in r} :: x in r <==> x in xs && x in keep
  {
    if xs == [] then []
    else if xs[0] in keep then [xs[0]] + Filter(xs[1..], keep)
    else Filter(xs[1..], keep)
  }

  /** 0, 1, ..., n - 1 */
  function Range(n: nat): (r: seq<int>)
    ensures |r| == n && forall i :: 0 <= i < n ==> r[i] == i
  {
    seq(n, i => i)
  }

  /**
   * Every k-element subsequence of `xs`, in the order itertools.combinations
   * yields them: combinations taking xs[0] first, then those skipping it.
   */
  function Combinations<T>(xs: seq<T>, k: nat): seq<seq<T>>
    decreases |xs|
  {
    if k == 0 then [[]]
    else if xs == [] then []
    else Prepend(xs[0], Combinations(xs[1..], k - 1)) + Combinations(xs[1..], k)
  }

  function Prepend<T>(x: T, cs: seq<seq<T>>): seq<seq<T>>
  {
    seq(|cs|, i requires 0 <= i < |cs| => [x] + cs[i])
  }

  function Binomial(n: nat, k: nat): nat
  {
    if k == 0 then 1 else if n == 0 then 0 else Binomial(n - 1, k - 1) + Binomial(n - 1, k)
  }

  /** There are n-choose-k combinations, so itertools yields each subset once. */
  lemma {:induction false} CombinationsCount<T>(xs: seq<T>, k: nat)
    ensures |Combinations(xs, k)| == Binomial(|xs|, k)
    decreases |xs|
  {
    if k != 0 && xs != [] {
      CombinationsCount(xs[1..], k - 1);
      CombinationsCount(xs[1..], k);
    }
  }

  /** A combination of a non-empty sequence either starts with its head or skips it. */
  lemma CombinationCases<T>(xs: seq<T>, k: nat, c: seq<T>) returns (c': seq<T>, taken: bool)
    requires c in Combinations(xs, k) && k > 0
    ensures xs != []
    ensures taken ==> c' in Combinations(xs[1..], k - 1) && c == [xs[0]] + c'
    ensures !taken ==> c in Combinations(xs[1..], k)
  {
    if xs == [] { assert false; }
    var pre := Prepend(xs[0], Combinations(xs[1..], k - 1));
    assert Combinations(xs, k) == pre + Combinations(xs[1..], k);
    if c in pre {
      var i :| 0 <= i < |pre| && pre[i] == c;
      c', taken := Combinations(xs[1..], k - 1)[i], true;
    } else {
      c', taken := c, false;
    }
  }

  /** Conversely, both kinds of combination of the tail give combinations of xs. */
  lemma CombinationExtend<T>(xs: seq<T>, k: nat, c: seq<T>)
    requires xs != [] && k > 0
    ensures c in Combinations(xs[1..], k - 1) ==> [xs[0]] + c in Combinations(xs, k)
    ensures c in Combinations(xs[1..], k) ==> c in Combinations(xs, k)
  {
    var cs := Combinations(xs[1..], k - 1);
    var pre := Prepend(xs[0], cs);
    assert Combinations(xs, k) == pre + Combinations(xs[1..], k);
    if c in cs {
      var i :| 0 <= i < |cs| && cs[i] == c;
      assert pre[i] == [xs[0]] + c;
    }
  }

  /** Every combination has k elements drawn from xs, and repeats none if xs repeats none. */
  lemma {:induction false} CombinationMembers<T>(xs: seq<T>, k: nat, c: seq<T>)
    requires c in Combinations(xs, k)
    ensures |c| == k
    ensures forall x :: x in c ==> x in xs
    ensures NoDup(xs) ==> NoDup(c)
    decreases |xs|
  {
    if k != 0 {
      var c', taken := CombinationCases(xs, k, c);
      if taken {
        CombinationMembers(xs[1..], k - 1, c');
        TakenMembers(xs, c');
      } else {
        CombinationMembers(xs[1..], k, c);
        SkippedMembers(xs, c);
      }
    }
  }

  lemma TakenMembers<T>(xs: seq<T>, c: seq<T>)
    requires xs != [] && forall x :: x in c ==> x in xs[1..]
    requires NoDup(xs[1..]) ==> NoDup(c)
    ensures forall x :: x in [xs[0]] + c ==> x in xs
    ensures NoDup(xs) ==> NoDup([xs[0]] + c)
  {
    if NoDup(xs) {
      NoDupTail(xs);
      NoDupCons(xs[0], c);
    }
  }

  lemma SkippedMembers<T>(xs: seq<T>, c: seq<T>)
    requires xs != [] && forall x :: x in c ==> x in xs[1..]
    requires NoDup(xs[1..]) ==> NoDup(c)
    ensures forall x :: x in c ==> x in xs
    ensures NoDup(xs) ==> NoDup(c)
  {
    if NoDup(xs) {
      NoDupTail(xs);
    }
  }

  lemma NoDupTail<T>(s: seq<T>)
    requires NoDup(s) && s != []
    ensures NoDup(s[1..]) && s[0] !in s[1..]
  {
  }

  lemma NoDupCons<T>(x: T, s: seq<T>)
    requires NoDup(s) && x !in s
    ensures NoDup([x] + s)
  {
    var t := [x] + s;
    forall i, j | 0 <= i < j < |t| ensures t[i] != t[j] {
      if i == 0 { assert t[j] == s[j-1]; } else { assert t[i] == s[i-1] && t[j] == s[j-1]; }
    }
  }

  lemma NoDupAppend<T>(a: seq<T>, b: seq<T>)
    requires NoDup(a) && NoDup(b)
    requires forall x :: x in a ==> x !in b
    ensures NoDup(a + b)
  {
    var s := a + b;
    forall i, j | 0 <= i < j < |s| ensures s[i] != s[j] {
      if j < |a| {
        assert s[i] == a[i] && s[j] == a[j];
      } else if i < |a| {
        assert s[i] == a[i] && s[j] == b[j - |a|];
        assert s[j] in b;
      } else {
        assert s[i] == b[i - |a|] && s[j] == b[j - |a|];
      }
    }
  }

  /** Rearranging a sequence keeps its members. */
  lemma PermutationMembers<T>(a: seq<T>, b: seq<T>)
    requires multiset(a) == multiset(b)
    ensures forall x :: x in a <==> x in b
  {
    forall x ensures x in a <==> x in b {
      assert x in a <==> x in multiset(a);
      assert x in b <==> x in multiset(b);
    }
  }

  /** Rearranging a sequence without repeats gives none. */
  lemma NoDupPermutation<T>(a: seq<T>, b: seq<T>)
    requires NoDup(a) && multiset(a) == multiset(b)
    ensures NoDup(b)
  {
    NoDupByMultiset(a);
    NoDupByMultiset(b);
  }

  /** Choosing any subset of xs and keeping xs's order gives one of the combinations. */
  lemma {:induction false} FilterIsCombination<T(!new)>(xs: seq<T>, keep: set<T>)
    ensures Filter(xs, keep) in Combinations(xs, |Filter(xs, keep)|)
    decreases |xs|
  {
    if xs != [] {
      var rest := Filter(xs[1..], keep);
      FilterIsCombination(xs[1..], keep);
      if xs[0] in keep {
        CombinationExtend(xs, |rest| + 1, rest);
      } else if |rest| > 0 {
        CombinationExtend(xs, |rest|, rest);
      }
    }
  }

  /** Two duplicate-free sequences with the same members hold the same multiset. */
  lemma {:induction false} NoDupSameMembers<T>(a: seq<T>, b: seq<T>)
    requires NoDup(a) && NoDup(b)
    requires forall x :: x in a <==> x in b
    ensures multiset(a) == multiset(b)
  {
    forall x ensures multiset(a)[x] == multiset(b)[x] {
      NoDupCount(a, x);
      NoDupCount(b, x);
    }
  }

  lemma {:induction false} NoDupCount<T>(s: seq<T>, x: T)
    requires NoDup(s)
    ensures multiset(s)[x] == if x in s then 1 else 0
  {
    if s != [] {
      assert s == [s[0]] + s[1..];
      assert NoDup(s[1..]);
      NoDupCount(s[1..], x);
      assert s[0] !in s[1..];
    }
  }

  /** A duplicate-free sequence whose members are all in m is a sub-multiset of m. */
  lemma {:induction false} NoDupSubMultiset<T>(s: seq<T>, m: multiset<T>)
    requires NoDup(s)
    requires forall x :: x in s ==> x in m
    ensures multiset(s) <= m
  {
    forall x ensures multiset(s)[x] <= m[x] {
      NoDupCount(s, x);
    }
  }

  /** A sequence is duplicate-free exactly when no element has multiplicity above one. */
  lemma {:induction false} NoDupByMultiset<T>(s: seq<T>)
    ensures NoDup(s) <==> forall x :: multiset(s)[x] <= 1
  {
    if NoDup(s) {
      forall x ensures multiset(s)[x] <= 1 {
        NoDupCount(s, x);
      }
    } else {
      var i, j :| 0 <= i < j < |s| && s[i] == s[j];
      var x := s[i];
      assert s == s[..i] + [s[i]] + s[i+1..j] + [s[j]] + s[j+1..];
      assert multiset(s)[x] >= 2;
    }
  }

  /** The elements of a sequence, as a set. */
  function Elements<T>(s: seq<T>): set<T>
  {
    set x | x in s
  }

  /** Python's len(set(s)) == len(s) holds exactly when s repeats nothing. */
  lemma {:induction false} ElementsSize<T>(s: seq<T>)
    ensures |Elements(s)| <= |s|
    ensures |Elements(s)| == |s| <==> NoDup(s)
  {
    if s != [] {
      var r := s[1..];
      ElementsSize(r);
      assert Elements(s) == {s[0]} + Elements(r);
      if s[0] in r {
        assert Elements(s) == Elements(r);
        var j :| 0 <= j < |r| && r[j] == s[0];
        assert s[j + 1] == s[0];
      } else {
        assert |Elements(s)| == |Elements(r)| + 1;
        if NoDup(r) { NoDupCons(s[0], r); assert [s[0]] + r == s; }
        if NoDup(s) { NoDupTail(s); }
      }
    }
  }

  /** len(set(s)) == 1 holds exactly when s is non-empty and constant. */
  lemma ElementsSizeOne<T>(s: seq<T>)
    ensures |Elements(s)| == 1 <==> (s != [] && forall i :: 0 <= i < |s| ==> s[i] == s[0])
  {
    if s != [] && forall i :: 0 <= i < |s| ==> s[i] == s[0] {
      assert Elements(s) == {s[0]};
    }
    if |Elements(s)| == 1 {
      var x :| x in Elements(s);
      assert x in s;
      assert s[0] in Elements(s);
      var rest := Elements(s) - {s[0]};
      assert Elements(s) == {s[0]} + rest;
      assert |rest| == 0;
      assert Elements(s) == {s[0]};
      forall i | 0 <= i < |s| ensures s[i] == s[0] {
        assert s[i] in Elements(s);
      }
    }
  }

  /** Nothing is left of a after taking b away exactly when a is within b. */
  lemma DiffEmptyIff<T>(a: multiset<T>, b: multiset<T>)
    ensures a - b == multiset{} <==> a <= b
  {
    if a - b == multiset{} {
      forall x ensures a[x] <= b[x] {
        assert (a - b)[x] == 0;
      }
    }
  }

  /** Sub-multisets chain. */
  lemma SubsetTrans<T>(a: multiset<T>, b: multiset<T>, c: multiset<T>)
    requires a <= b && b <= c
    ensures a <= c
  {
  }

  /** Adding b and taking it away again gives back a. */
  lemma MultisetCancel<T>(a: multiset<T>, b: multiset<T>)
    ensures (a + b) - b == a
  {
  }

  /** A sub-multiset is its own intersection with the whole. */
  lemma SubIntersect<T>(a: multiset<T>, b: multiset<T>)
    requires a <= b
    ensures a * b == a
  {
  }

  /** Two balance inequalities between three states chain into one. */
  lemma ChainAtLeast<T>(B0: multiset<T>, B1: multiset<T>, B2: multiset<T>, P0: multiset<T>, P1: multiset<T>, P2: multiset<T>)
    requires B0 + P1 <= B1 + P0 && B1 + P2 <= B2 + P1
    ensures B0 + P2 <= B2 + P0
  {
    forall x ensures (B0 + P2)[x] <= (B2 + P0)[x] {
      assert (B0 + P1)[x] <= (B1 + P0)[x] && (B1 + P2)[x] <= (B2 + P1)[x];
    }
  }

  /** Two balance equations between three states chain into one. */
  lemma ChainExact<T>(B0: multiset<T>, B1: multiset<T>, B2: multiset<T>, C0: multiset<T>, C1: multiset<T>, C2: multiset<T>,
                      P0: multiset<T>, P1: multiset<T>, P2: multiset<T>)
    requires B1 + C1 + P0 == B0 + C0 + P1 && B2 + C2 + P1 == B1 + C1 + P2
    ensures B2 + C2 + P0 == B0 + C0 + P2
  {
    forall x ensures (B2 + C2 + P0)[x] == (B0 + C0 + P2)[x] {
      assert (B1 + C1 + P0)[x] == (B0 + C0 + P1)[x] && (B2 + C2 + P1)[x] == (B1 + C1 + P2)[x];
    }
  }

  /**
   * A property each element has given the elements before it and its tag
   * still holds of every element after one more element that has it.
   */
  lemma ExtendPrefixes<S>(P: (seq<S>, S, int) -> bool, xs: seq<S>, tags: seq<int>, x: S, t: int)
    requires |tags| == |xs|
    requires forall k :: 0 <= k < |xs| ==> P(xs[..k], xs[k], tags[k])
    requires P(xs, x, t)
    ensures forall k :: 0 <= k < |xs + [x]| ==> P((xs + [x])[..k], (xs + [x])[k], (tags + [t])[k])
  {
    forall k | 0 <= k < |xs + [x]| ensures P((xs + [x])[..k], (xs + [x])[k], (tags + [t])[k]) {
      if k < |xs| {
        assert (xs + [x])[..k] == xs[..k];
      } else {
        assert (xs + [x])[..k] == xs;
      }
    }
  }

  /** A sub-multiset of the same size is the whole multiset. */
  lemma SubMultisetSameSize<T>(a: multiset<T>, b: multiset<T>)
    requires a <= b && |a| == |b|
    ensures a == b
  {
    var d := b - a;
    assert b == a + d;
    assert |d| == 0;
  }

  /** Filtering a duplicate-free sequence leaves it duplicate-free. */
  lemma {:induction false} FilterNoDup<T(!new)>(xs: seq<T>, keep: set<T>)
    requires NoDup(xs)
    ensures NoDup(Filter(xs, keep))
  {
    if xs != [] {
      NoDupTail(xs);
      FilterNoDup(xs[1..], keep);
      if xs[0] in keep {
        NoDupCons(xs[0], Filter(xs[1..], keep));
      }
    }
  }

  /** The blocks laid end to end. */
  function Concat<T>(blocks: seq<seq<T>>): (r: seq<T>)
    ensures multiset(r) == Bag(blocks)
  {
    if blocks == [] then [] else Concat(blocks[..|blocks| - 1]) + blocks[|blocks| - 1]
  }

  /** An element of the concatenation comes from one of the blocks. */
  lemma {:induction false} ConcatMember<T>(blocks: seq<seq<T>>, x: T) returns (k: int)
    requires x in Concat(blocks)
    ensures 0 <= k < |blocks| && x in blocks[k]
  {
    var front := blocks[..|blocks| - 1];
    if x in Concat(front) {
      k := ConcatMember(front, x);
    } else {
      k := |blocks| - 1;
    }
  }

  /** All the elements of a sequence of groups, counted with multiplicity. */
  function Bag<T>(gs: seq<seq<T>>): multiset<T>
  {
    if gs == [] then multiset{} else Bag(gs[..|gs| - 1]) + multiset(gs[|gs| - 1])
  }

  lemma {:induction false} BagAppend<T>(a: seq<seq<T>>, b: seq<seq<T>>)
    ensures Bag(a + b) == Bag(a) + Bag(b)
    decreases |b|
  {
    if b != [] {
      assert (a + b)[..|a + b| - 1] == a + b[..|b| - 1];
      BagAppend(a, b[..|b| - 1]);
    } else {
      assert a + b == a;
    }
  }

  lemma BagCons<T>(g: seq<T>, r: seq<seq<T>>)
    ensures Bag([g] + r) == multiset(g) + Bag(r)
  {
    BagAppend([g], r);
    assert [g][..0] == [];
  }

  /** A member of the bag lies in one of the groups. */
  lemma {:induction false} BagMember<T>(gs: seq<seq<T>>, x: T) returns (k: int)
    requires x in Bag(gs)
    ensures 0 <= k < |gs| && x in gs[k]
    decreases |gs|
  {
    var n := |gs| - 1;
    if x in multiset(gs[n]) {
      k := n;
    } else {
      k := BagMember(gs[..n], x);
      assert gs[..n][k] == gs[k];
    }
  }

  /** Taking one group out of the sequence takes its elements out of the bag. */
  lemma BagRemoveAt<T>(gs: seq<seq<T>>, k: int)
    requires 0 <= k < |gs|
    ensures Bag(gs) == multiset(gs[k]) + Bag(gs[..k] + gs[k + 1..])
  {
    BagSplit(gs, k);
    BagHead(gs[k..]);
    assert gs[k..][1..] == gs[k + 1..];
    BagAppend(gs[..k], gs[k + 1..]);
  }

  lemma BagSplit<T>(gs: seq<seq<T>>, k: int)
    requires 0 <= k <= |gs|
    ensures Bag(gs) == Bag(gs[..k]) + Bag(gs[k..])
  {
    assert gs == gs[..k] + gs[k..];
    BagAppend(gs[..k], gs[k..]);
  }

  lemma BagHead<T>(gs: seq<seq<T>>)
    requires gs != []
    ensures Bag(gs) == multiset(gs[0]) + Bag(gs[1..])
  {
    assert gs == [gs[0]] + gs[1..];
    BagCons(gs[0], gs[1..]);
  }

  /** Two orderings of the same groups hold the same elements. */
  lemma {:induction false} BagPermutation<T>(a: seq<seq<T>>, b: seq<seq<T>>)
    requires multiset(a) == multiset(b)
    ensures Bag(a) == Bag(b)
    decreases |a|
  {
    if a == [] {
      assert |b| == |multiset(b)| == 0;
    } else {
      var n := |a| - 1;
      var x := a[n];
      assert a == a[..n] + [x];
      assert x in multiset(b);
      var k :| 0 <= k < |b| && b[k] == x;
      var rest := b[..k] + b[k + 1..];
      assert b == b[..k] + [x] + b[k + 1..];
      assert multiset(rest) == multiset(b) - multiset{x};
      assert multiset(a[..n]) == multiset(a) - multiset{x};
      BagPermutation(a[..n], rest);
      BagRemoveAt(b, k);
    }
  }

  /** Every listed position is a position of a sequence of length n. */
  predicate InRange(d: seq<int>, n: int)
  {
    forall j :: 0 <= j < |d| ==> 0 <= d[j] < n
  }

  /** xs[d[0]], xs[d[1]], ...: the elements at the listed positions, in the listed order. */
  function Picked<T>(xs: seq<T>, d: seq<int>): (r: seq<T>)
    requires InRange(d, |xs|)
    ensures |r| == |d| && forall j :: 0 <= j < |d| ==> r[j] == xs[d[j]]
  {
    seq(|d|, j requires 0 <= j < |d| => xs[d[j]])
  }

  /** The elements whose positions are not listed in d, in their original order. */
  function Kept<T>(xs: seq<T>, d: seq<int>): seq<T>
  {
    if xs == [] then [] else Kept(xs[..|xs| - 1], d) + (if |xs| - 1 in d then [] else [xs[|xs| - 1]])
  }

  /** Kept only looks at positions below |xs|. */
  lemma {:induction false} KeptSameBelow<T>(xs: seq<T>, d: seq<int>, d': seq<int>)
    requires forall i :: 0 <= i < |xs| ==> (i in d <==> i in d')
    ensures Kept(xs, d) == Kept(xs, d')
    decreases |xs|
  {
    if xs != [] {
      KeptSameBelow(xs[..|xs| - 1], d, d');
    }
  }

  lemma {:induction false} KeptNothing<T>(xs: seq<T>)
    ensures Kept(xs, []) == xs
    decreases |xs|
  {
    if xs != [] {
      KeptNothing(xs[..|xs| - 1]);
      assert xs == xs[..|xs| - 1] + [xs[|xs| - 1]];
    }
  }

  lemma {:induction false} KeptEverything<T>(xs: seq<T>, d: seq<int>)
    requires forall i :: 0 <= i < |xs| ==> i in d
    ensures Kept(xs, d) == []
    decreases |xs|
  {
    if xs != [] {
      KeptEverything(xs[..|xs| - 1], d);
    }
  }

  lemma PickedAround<T>(xs: seq<T>, d: seq<int>, p: int)
    requires InRange(d, |xs|) && 0 <= p < |d|
    ensures InRange(d[..p], |xs|) && InRange(d[p + 1..], |xs|)
    ensures Picked(xs, d) == Picked(xs, d[..p]) + [xs[d[p]]] + Picked(xs, d[p + 1..])
  {
    var r := Picked(xs, d[..p]) + [xs[d[p]]] + Picked(xs, d[p + 1..]);
    forall j | 0 <= j < |d| ensures Picked(xs, d)[j] == r[j] {
      if j > p {
        assert d[p + 1..][j - p - 1] == d[j];
      }
    }
  }

  /**
   * Finds where the duplicate-free list of positions d holds n, and drops
   * that entry: what is left lists the same positions below n.
   */
  lemma DropListed(d: seq<int>, n: int) returns (p: int, d': seq<int>)
    requires NoDup(d) && InRange(d, n + 1) && n in d
    ensures 0 <= p < |d| && d[p] == n && d' == d[..p] + d[p + 1..]
    ensures NoDup(d') && InRange(d', n)
    ensures forall i :: 0 <= i < n ==> (i in d <==> i in d')
  {
    p :| 0 <= p < |d| && d[p] == n;
    d' := d[..p] + d[p + 1..];
    DropPosition(d, p, n);
  }

  lemma DropPosition(d: seq<int>, p: int, n: int)
    requires NoDup(d) && InRange(d, n + 1) && 0 <= p < |d| && d[p] == n
    ensures NoDup(d[..p] + d[p + 1..]) && InRange(d[..p] + d[p + 1..], n)
    ensures forall i :: 0 <= i < n ==> (i in d <==> i in d[..p] + d[p + 1..])
  {
    var d' := d[..p] + d[p + 1..];
    forall q | 0 <= q < |d'| ensures 0 <= d'[q] < n {
      var q' := if q < p then q else q + 1;
      assert d'[q] == d[q'];
    }
    forall i, j | 0 <= i < j < |d'| ensures d'[i] != d'[j] {
      var i' := if i < p then i else i + 1;
      var j' := if j < p then j else j + 1;
      assert d'[i] == d[i'] && d'[j] == d[j'];
    }
    forall i | 0 <= i < n ensures i in d <==> i in d' {
      if i in d {
        var q :| 0 <= q < |d| && d[q] == i;
        if q < p {
          assert d'[q] == i;
        } else {
          assert d'[q - 1] == i;
        }
      }
    }
  }

  lemma MultisetSnoc<T>(xs: seq<T>)
    requires xs != []
    ensures multiset(xs) == multiset(xs[..|xs| - 1]) + multiset{xs[|xs| - 1]}
  {
    assert xs == xs[..|xs| - 1] + [xs[|xs| - 1]];
  }

  /** Dropping the entry for the last position picks the same elements from the front. */
  lemma PickedWithout<T>(xs: seq<T>, d: seq<int>, p: int, d': seq<int>)
    requires InRange(d, |xs|) && xs != []
    requires 0 <= p < |d| && d' == d[..p] + d[p + 1..] && InRange(d', |xs| - 1)
    ensures InRange(d[..p], |xs|) && InRange(d[p + 1..], |xs|)
    ensures Picked(xs[..|xs| - 1], d') == Picked(xs, d[..p]) + Picked(xs, d[p + 1..])
  {
    var front := xs[..|xs| - 1];
    var left, right := Picked(xs, d[..p]), Picked(xs, d[p + 1..]);
    forall j | 0 <= j < |d'| ensures Picked(front, d')[j] == (left + right)[j] {
      if j < p {
        assert d'[j] == d[..p][j];
      } else {
        assert d'[j] == d[p + 1..][j - p];
      }
    }
  }

  /** The last position is listed: it goes to the picked side. */
  lemma PickedKeptLastListed<T>(xs: seq<T>, d: seq<int>, p: int, d': seq<int>)
    requires InRange(d, |xs|) && xs != []
    requires 0 <= p < |d| && d[p] == |xs| - 1 && d' == d[..p] + d[p + 1..]
    requires InRange(d', |xs| - 1)
    requires forall i :: 0 <= i < |xs| - 1 ==> (i in d <==> i in d')
    requires multiset(Picked(xs[..|xs| - 1], d')) + multiset(Kept(xs[..|xs| - 1], d')) == multiset(xs[..|xs| - 1])
    ensures multiset(Picked(xs, d)) + multiset(Kept(xs, d)) == multiset(xs)
  {
    var n := |xs| - 1;
    var front := xs[..n];
    MultisetSnoc(xs);
    assert Kept(xs, d) == Kept(front, d);
    KeptSameBelow(front, d, d');
    PickedAround(xs, d, p);
    PickedWithout(xs, d, p, d');
    var left, right := Picked(xs, d[..p]), Picked(xs, d[p + 1..]);
    assert multiset(Picked(front, d')) == multiset(left) + multiset(right);
    assert multiset(Picked(xs, d)) == multiset(left) + multiset{xs[n]} + multiset(right);
  }

  /** The last position is not listed: it goes to the kept side. */
  lemma PickedKeptLastKept<T>(xs: seq<T>, d: seq<int>)
    requires xs != [] && InRange(d, |xs| - 1) && |xs| - 1 !in d
    requires multiset(Picked(xs[..|xs| - 1], d)) + multiset(Kept(xs[..|xs| - 1], d)) == multiset(xs[..|xs| - 1])
    ensures multiset(Picked(xs, d)) + multiset(Kept(xs, d)) == multiset(xs)
  {
    var n := |xs| - 1;
    var front := xs[..n];
    MultisetSnoc(xs);
    assert Kept(xs, d) == Kept(front, d) + [xs[n]];
    PickedFront(xs, d);
    assert multiset(Kept(xs, d)) == multiset(Kept(front, d)) + multiset{xs[n]};
  }

  /** Positions short of the last pick the same elements from the front. */
  lemma PickedFront<T>(xs: seq<T>, d: seq<int>)
    requires xs != [] && InRange(d, |xs| - 1)
    ensures Picked(xs, d) == Picked(xs[..|xs| - 1], d)
  {
    var front := xs[..|xs| - 1];
    forall j | 0 <= j < |d| ensures Picked(xs, d)[j] == Picked(front, d)[j] {
    }
  }

  /** A listed position lies in range. */
  lemma InRangeAt(d: seq<int>, n: int, j: int)
    requires InRange(d, n) && 0 <= j < |d|
    ensures 0 <= d[j] < n
  {
  }

  lemma NotListedBelow(d: seq<int>, n: int)
    requires InRange(d, n + 1) && n !in d
    ensures InRange(d, n)
  {
    forall j | 0 <= j < |d| ensures d[j] < n {
      assert d[j] in d;
    }
  }

  /**
   * With distinct positions, the picked elements and the kept ones together
   * are exactly the elements of xs.
   */
  lemma {:induction false} PickedKeptSplit<T>(xs: seq<T>, d: seq<int>)
    requires NoDup(d) && InRange(d, |xs|)
    ensures multiset(Picked(xs, d)) + multiset(Kept(xs, d)) == multiset(xs)
    decreases |xs|, 1
  {
    if xs == [] {
      if d != [] {
        InRangeAt(d, 0, 0);
        assert false;
      }
    } else if |xs| - 1 in d {
      PickedKeptListed(xs, d);
    } else {
      PickedKeptUnlisted(xs, d);
    }
  }

  /** PickedKeptSplit when the last position is listed. */
  lemma {:induction false} PickedKeptListed<T>(xs: seq<T>, d: seq<int>)
    requires NoDup(d) && InRange(d, |xs|) && xs != [] && |xs| - 1 in d
    ensures multiset(Picked(xs, d)) + multiset(Kept(xs, d)) == multiset(xs)
    decreases |xs|, 0
  {
    var n := |xs| - 1;
    var p, d' := DropListed(d, n);
    PickedKeptSplit(xs[..n], d');
    PickedKeptLastListed(xs, d, p, d');
  }

  /** PickedKeptSplit when the last position is not listed. */
  lemma {:induction false} PickedKeptUnlisted<T>(xs: seq<T>, d: seq<int>)
    requires NoDup(d) && InRange(d, |xs|) && xs != [] && |xs| - 1 !in d
    ensures multiset(Picked(xs, d)) + multiset(Kept(xs, d)) == multiset(xs)
    decreases |xs|, 0
  {
    var n := |xs| - 1;
    NotListedBelow(d, n);
    PickedKeptSplit(xs[..n], d);
    PickedKeptLastKept(xs, d);
  }

  /** Everything kept comes from xs. */
  lemma {:induction false} KeptMembers<T>(xs: seq<T>, d: seq<int>)
    ensures forall x :: x in Kept(xs, d) ==> x in xs
    decreases |xs|
  {
    if xs != [] {
      KeptMembers(xs[..|xs| - 1], d);
    }
  }

  /** Picking every position, in order, gives xs back. */
  lemma PickedAll<T>(xs: seq<T>)
    ensures InRange(Range(|xs|), |xs|) && NoDup(Range(|xs|))
    ensures Picked(xs, Range(|xs|)) == xs
  {
  }

  /** A combination of distinct in-range positions is itself distinct and in range. */
  lemma CombinationInRange(xs: seq<int>, k: nat, c: seq<int>, n: int)
    requires NoDup(xs) && InRange(xs, n) && c in Combinations(xs, k)
    ensures |c| == k && NoDup(c) && InRange(c, n)
    ensures forall j :: 0 <= j < |c| ==> c[j] in xs
  {
    CombinationMembers(xs, k, c);
    forall j | 0 <= j < |c| ensures 0 <= c[j] < n {
      assert c[j] in c;
      var q :| 0 <= q < |xs| && xs[q] == c[j];
    }
  }
}
