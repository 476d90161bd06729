// The first phase of plan_steps: pair each target group with at most one
// floor group.  Every (target, floor) pair that shares a card is listed with
// its overlap, the list is sorted in reverse (largest overlap first, ties
// broken by the larger target index, then the larger floor index), and the
// pairs are taken greedily whenever neither side is matched yet.
module Matching {
  import opened Util
  import opened Cards
  import opened Sorting

  /** (overlap, target index, floor index) */
  type Triple = (int, int, int)

  /** sum((tc & fc).values()): the number of cards two groups share. */
  function Overlap(a: multiset<Card>, b: multiset<Card>): nat
  {
    |a * b|
  }

  function PairOf(T: seq<multiset<Card>>, F: seq<multiset<Card>>, t: int, f: int): Triple
    requires 0 <= t < |T| && 0 <= f < |F|
  {
    (Overlap(T[t], F[f]), t, f)
  }

  /** The pairs of target t with the first k floor groups that share a card, in floor order. */
  function Row(T: seq<multiset<Card>>, F: seq<multiset<Card>>, t: int, k: int): seq<Triple>
    requires 0 <= t < |T| && 0 <= k <= |F|
  {
    if k == 0 then []
    else Row(T, F, t, k - 1) + (if Overlap(T[t], F[k - 1]) > 0 then [PairOf(T, F, t, k - 1)] else [])
  }

  /** The pairs of the first n targets, target by target: the order of the two nested loops. */
  function AllPairs(T: seq<multiset<Card>>, F: seq<multiset<Card>>, n: int): seq<Triple>
    requires 0 <= n <= |T|
  {
    if n == 0 then [] else AllPairs(T, F, n - 1) + Row(T, F, n - 1, |F|)
  }

  /** p is the pair of two groups that share at least one card. */
  predicate IsPair(T: seq<multiset<Card>>, F: seq<multiset<Card>>, p: Triple)
  {
    0 <= p.1 < |T| && 0 <= p.2 < |F| && p.0 == Overlap(T[p.1], F[p.2]) && p.0 > 0
  }

  /** a holds exactly the pairs of the targets below n. */
  ghost predicate PairsBelow(T: seq<multiset<Card>>, F: seq<multiset<Card>>, a: seq<Triple>, n: int)
  {
    forall p {:trigger p in a} :: p in a <==> IsPair(T, F, p) && p.1 < n
  }

  /** r holds exactly the pairs of target t with the floor groups below k, in floor order. */
  ghost predicate RowOf(T: seq<multiset<Card>>, F: seq<multiset<Card>>, r: seq<Triple>, t: int, k: int)
  {
    (forall p {:trigger p in r} :: p in r <==> IsPair(T, F, p) && p.1 == t && p.2 < k) &&
    (forall i, j :: 0 <= i < j < |r| ==> r[i].2 < r[j].2)
  }

  lemma {:induction false} RowMembers(T: seq<multiset<Card>>, F: seq<multiset<Card>>, t: int, k: int)
    requires 0 <= t < |T| && 0 <= k <= |F|
    ensures RowOf(T, F, Row(T, F, t, k), t, k)
  {
    if k > 0 {
      RowMembers(T, F, t, k - 1);
      var r := Row(T, F, t, k - 1);
      forall i | 0 <= i < |r| ensures r[i].2 < k - 1 {
        assert r[i] in r;
      }
    }
  }

  lemma {:induction false} AllPairsMembers(T: seq<multiset<Card>>, F: seq<multiset<Card>>, n: int)
    requires 0 <= n <= |T|
    ensures PairsBelow(T, F, AllPairs(T, F, n), n)
    ensures NoDup(AllPairs(T, F, n))
  {
    if n > 0 {
      AllPairsMembers(T, F, n - 1);
      RowMembers(T, F, n - 1, |F|);
      AppendRow(T, F, n, AllPairs(T, F, n - 1), Row(T, F, n - 1, |F|));
    }
  }

  /** The pairs of the first n - 1 targets followed by the row of target n - 1. */
  lemma AppendRow(T: seq<multiset<Card>>, F: seq<multiset<Card>>, n: int, a: seq<Triple>, r: seq<Triple>)
    requires PairsBelow(T, F, a, n - 1) && NoDup(a)
    requires RowOf(T, F, r, n - 1, |F|)
    ensures PairsBelow(T, F, a + r, n)
    ensures NoDup(a + r)
  {
    RowNoDup(r);
    forall p | p in a ensures p !in r {
      assert p.1 < n - 1;
    }
    NoDupAppend(a, r);
  }

  lemma RowNoDup(r: seq<Triple>)
    requires forall i, j :: 0 <= i < j < |r| ==> r[i].2 < r[j].2
    ensures NoDup(r)
  {
  }

  // ----- the reverse sort -----

  /** The pair as one integer, in the same order as the tuple when indices are below b. */
  function Encode(p: Triple, b: int): int
  {
    (p.0 * b + p.1) * b + p.2
  }

  /** Python orders tuples lexicographically; p comes before q in the reverse sort. */
  predicate Before(p: Triple, q: Triple)
  {
    p.0 > q.0 || (p.0 == q.0 && (p.1 > q.1 || (p.1 == q.1 && p.2 > q.2)))
  }

  /** sort(reverse=True) as a sort by the negated code. */
  function ReverseKey(b: int): Triple -> int
  {
    p => -Encode(p, b)
  }

  /** The pairs of every target with every floor group, largest first. */
  function SortedPairs(T: seq<multiset<Card>>, F: seq<multiset<Card>>): seq<Triple>
  {
    SortBy(AllPairs(T, F, |T|), ReverseKey(|T| + |F| + 1))
  }

  lemma MulAtLeast(k: int, b: int)
    requires k >= 1 && b >= 0
    ensures k * b >= b
  {
    assert k * b == b + (k - 1) * b;
    assert (k - 1) * b >= 0;
  }

  /** One more digit in base b: numbers compare by their leading part, then by the digit. */
  lemma Digit(x: int, d: int, y: int, e: int, b: int)
    requires 0 <= d < b && 0 <= e < b
    ensures x * b + d < y * b + e <==> x < y || (x == y && d < e)
  {
    if x < y {
      assert y * b == x * b + (y - x) * b;
      MulAtLeast(y - x, b);
    } else if x > y {
      assert x * b == y * b + (x - y) * b;
      MulAtLeast(x - y, b);
    }
  }

  lemma EncodeOrder(p: Triple, q: Triple, b: int)
    requires 0 <= p.1 < b && 0 <= p.2 < b && 0 <= q.1 < b && 0 <= q.2 < b
    ensures Encode(p, b) > Encode(q, b) <==> Before(p, q)
    ensures Encode(p, b) == Encode(q, b) <==> p == q
  {
    Digit(p.0, p.1, q.0, q.1, b);
    Digit(q.0, q.1, p.0, p.1, b);
    Digit(p.0 * b + p.1, p.2, q.0 * b + q.1, q.2, b);
    Digit(q.0 * b + q.1, q.2, p.0 * b + p.1, p.2, b);
  }

  /** Each pair comes strictly before every later one. */
  predicate Descending(P: seq<Triple>)
  {
    forall i, j :: 0 <= i < j < |P| ==> Before(P[i], P[j])
  }

  /** The sorted pairs are exactly the pairs sharing a card. */
  lemma SortedPairsMembers(T: seq<multiset<Card>>, F: seq<multiset<Card>>)
    ensures forall p {:trigger p in SortedPairs(T, F)} :: p in SortedPairs(T, F) <==> IsPair(T, F, p)
    ensures NoDup(SortedPairs(T, F))
  {
    var a := AllPairs(T, F, |T|);
    var P := SortBy(a, ReverseKey(|T| + |F| + 1));
    assert P == SortedPairs(T, F);
    SortByFacts(a, ReverseKey(|T| + |F| + 1));
    PermutationMembers(a, P);
    AllPairsMembers(T, F, |T|);
    NoDupPermutation(a, P);
  }

  /** Two different pairs in sorted position are in reverse tuple order. */
  lemma SortedPairsStep(T: seq<multiset<Card>>, F: seq<multiset<Card>>, p: Triple, q: Triple)
    requires IsPair(T, F, p) && IsPair(T, F, q) && p != q
    requires ReverseKey(|T| + |F| + 1)(p) <= ReverseKey(|T| + |F| + 1)(q)
    ensures Before(p, q)
  {
    EncodeOrder(p, q, |T| + |F| + 1);
  }

  /** The sorted pairs are each listed once, in reverse tuple order. */
  lemma SortedPairsFacts(T: seq<multiset<Card>>, F: seq<multiset<Card>>)
    ensures forall p {:trigger p in SortedPairs(T, F)} :: p in SortedPairs(T, F) <==> IsPair(T, F, p)
    ensures Descending(SortedPairs(T, F))
  {
    var P := SortedPairs(T, F);
    SortedPairsMembers(T, F);
    SortByFacts(AllPairs(T, F, |T|), ReverseKey(|T| + |F| + 1));
    forall i, j | 0 <= i < j < |P| ensures Before(P[i], P[j]) {
      assert P[i] in P && P[j] in P;
      SortedPairsStep(T, F, P[i], P[j]);
    }
  }

  /** A permutation of a sequence without repeats has none either. */
  lemma NoRepeat(a: seq<Triple>, P: seq<Triple>, i: int, j: int)
    requires NoDup(a) && multiset(P) == multiset(a) && 0 <= i < j < |P|
    ensures P[i] != P[j]
  {
    NoDupByMultiset(a);
    NoDupByMultiset(P);
  }

  // ----- the greedy choice -----

  /** The floor groups already taken: used_floor. */
  function Used(m: map<int, int>): set<int>
  {
    set u | u in m :: m[u]
  }

  /** match_t2f after the first k sorted pairs. */
  function Greedy(P: seq<Triple>, k: int): map<int, int>
    requires 0 <= k <= |P|
  {
    if k == 0 then map[]
    else
      var m := Greedy(P, k - 1);
      var p := P[k - 1];
      if p.1 !in m && p.2 !in Used(m) then m[p.1 := p.2] else m
  }

  /** The floor groups two targets are matched to differ. */
  predicate Injective(m: map<int, int>)
  {
    forall u, v :: u in m && v in m && u != v ==> m[u] != m[v]
  }

  /** Every match is one of the pairs, taken among the first k. */
  predicate FromPairs(P: seq<Triple>, m: map<int, int>, k: int)
  {
    forall u :: u in m ==> exists j :: 0 <= j < k && j < |P| && P[j].1 == u && P[j].2 == m[u]
  }

  /**
   * Each of the first k pairs was passed over only because its target was
   * matched, or its floor group had been taken by a pair no later than it.
   */
  predicate Blocked(P: seq<Triple>, m: map<int, int>, k: int)
  {
    forall j :: 0 <= j < k && j < |P| ==>
      P[j].1 in m ||
      exists j' :: 0 <= j' <= j && P[j'].1 in m && m[P[j'].1] == P[j].2 && P[j'].2 == P[j].2
  }

  lemma UsedAdd(m: map<int, int>, t: int, f: int)
    requires t !in m
    ensures Used(m[t := f]) == Used(m) + {f}
  {
    forall x | x in Used(m) ensures x in Used(m[t := f]) {
      var u :| u in m && m[u] == x;
      assert m[t := f][u] == x;
    }
    assert m[t := f][t] == f;
  }

  /** Greedy never matches two targets to one floor group. */
  lemma {:induction false} GreedyInjective(P: seq<Triple>, k: int)
    requires 0 <= k <= |P|
    ensures Injective(Greedy(P, k))
  {
    if k > 0 {
      GreedyInjective(P, k - 1);
      var m := Greedy(P, k - 1);
      var p := P[k - 1];
      if p.1 !in m && p.2 !in Used(m) {
        var m' := m[p.1 := p.2];
        forall u, v | u in m' && v in m' && u != v ensures m'[u] != m'[v] {
          if u == p.1 {
            assert m[v] in Used(m);
          } else if v == p.1 {
            assert m[u] in Used(m);
          }
        }
      }
    }
  }

  /** Every match Greedy makes is one of the pairs it has walked over. */
  lemma {:induction false} GreedyFromPairs(P: seq<Triple>, k: int)
    requires 0 <= k <= |P|
    ensures FromPairs(P, Greedy(P, k), k)
  {
    if k > 0 {
      GreedyFromPairs(P, k - 1);
      var m := Greedy(P, k - 1);
      var p := P[k - 1];
      if p.1 !in m && p.2 !in Used(m) {
        var m' := m[p.1 := p.2];
        forall u | u in m' ensures exists j :: 0 <= j < k && j < |P| && P[j].1 == u && P[j].2 == m'[u] {
          if u == p.1 {
            assert P[k - 1].1 == u && P[k - 1].2 == m'[u];
          } else {
            var j :| 0 <= j < k - 1 && j < |P| && P[j].1 == u && P[j].2 == m[u];
            assert P[j].2 == m'[u];
          }
        }
      }
    }
  }

  /** A pair Greedy passes over has its target matched or its floor group taken no later. */
  lemma {:induction false} GreedyBlocked(P: seq<Triple>, k: int)
    requires 0 <= k <= |P|
    ensures Blocked(P, Greedy(P, k), k)
  {
    if k > 0 {
      GreedyBlocked(P, k - 1);
      GreedyFromPairs(P, k - 1);
      var m := Greedy(P, k - 1);
      var p := P[k - 1];
      var m' := Greedy(P, k);
      forall j | 0 <= j < k && j < |P| ensures P[j].1 in m' ||
        exists j' :: 0 <= j' <= j && P[j'].1 in m' && m'[P[j'].1] == P[j].2 && P[j'].2 == P[j].2
      {
        if j < k - 1 {
          if P[j].1 in m {
            assert P[j].1 in m';
          } else {
            var j' :| 0 <= j' <= j && P[j'].1 in m && m[P[j'].1] == P[j].2 && P[j'].2 == P[j].2;
            assert P[j'].1 in m' && m'[P[j'].1] == P[j].2;
          }
        } else if p.1 !in m && p.2 !in Used(m) {
          assert m' == m[p.1 := p.2];
          assert P[j].1 in m';
        } else if p.1 !in m {
          var u :| u in m && m[u] == p.2;
          var j' :| 0 <= j' < k - 1 && j' < |P| && P[j'].1 == u && P[j'].2 == m[u];
          assert P[j'].1 in m' && m'[P[j'].1] == P[j].2;
        } else {
          assert P[j].1 in m';
        }
      }
    }
  }

  /** The match of a sorted pair list: each target to at most one floor group. */
  function Match(T: seq<multiset<Card>>, F: seq<multiset<Card>>): map<int, int>
  {
    var P := SortedPairs(T, F);
    Greedy(P, |P|)
  }

  /** An unmatched target that shares a card with a floor group finds that group taken. */
  lemma UnmatchedBlocked(T: seq<multiset<Card>>, F: seq<multiset<Card>>, t: int, f: int)
    requires 0 <= t < |T| && 0 <= f < |F| && Overlap(T[t], F[f]) > 0 && t !in Match(T, F)
    ensures f in Used(Match(T, F))
  {
    var P := SortedPairs(T, F);
    var m := Match(T, F);
    SortedPairsMembers(T, F);
    GreedyBlocked(P, |P|);
    assert IsPair(T, F, PairOf(T, F, t, f));
    assert PairOf(T, F, t, f) in SortedPairs(T, F);
    var j :| 0 <= j < |P| && P[j] == PairOf(T, F, t, f);
    var j' :| 0 <= j' <= j && P[j'].1 in m && m[P[j'].1] == P[j].2 && P[j'].2 == P[j].2;
    var u := P[j'].1;
    assert u in m && m[u] == f;
    assert m[u] in Used(m);
  }

  /**
   * The matching is injective both ways and pairs a target with a floor
   * group only when they share a card; a target left unmatched shares a card
   * only with floor groups already taken by other targets.
   */
  lemma MatchFacts(T: seq<multiset<Card>>, F: seq<multiset<Card>>)
    ensures Injective(Match(T, F))
    ensures forall t :: t in Match(T, F) ==>
      0 <= t < |T| && 0 <= Match(T, F)[t] < |F| && Overlap(T[t], F[Match(T, F)[t]]) > 0
    ensures forall t, f :: 0 <= t < |T| && 0 <= f < |F| && t !in Match(T, F) && Overlap(T[t], F[f]) > 0 ==>
      f in Used(Match(T, F))
  {
    var P := SortedPairs(T, F);
    var m := Match(T, F);
    SortedPairsMembers(T, F);
    GreedyInjective(P, |P|);
    GreedyFromPairs(P, |P|);
    forall t | t in m ensures 0 <= t < |T| && 0 <= m[t] < |F| && Overlap(T[t], F[m[t]]) > 0 {
      var j :| 0 <= j < |P| && P[j].1 == t && P[j].2 == m[t];
      assert P[j] in P;
    }
    forall t, f | 0 <= t < |T| && 0 <= f < |F| && t !in m && Overlap(T[t], F[f]) > 0 ensures f in Used(m) {
      UnmatchedBlocked(T, F, t, f);
    }
  }

  // ----- planning a floor against itself -----

  /** Once matched, a target stays matched to the same floor group. */
  lemma {:induction false} GreedyGrows(P: seq<Triple>, j: int, k: int)
    requires 0 <= j <= k <= |P|
    ensures forall u :: u in Greedy(P, j) ==> u in Greedy(P, k) && Greedy(P, k)[u] == Greedy(P, j)[u]
  {
    if j < k {
      GreedyGrows(P, j, k - 1);
    }
  }

  /** The pair at which a matched target was matched: it was unmatched just before. */
  lemma {:induction false} GreedyFirst(P: seq<Triple>, k: int, u: int) returns (j: int)
    requires 0 <= k <= |P| && u in Greedy(P, k)
    ensures 0 <= j < k && u !in Greedy(P, j) && u in Greedy(P, j + 1)
    ensures P[j].1 == u && P[j].2 == Greedy(P, k)[u]
  {
    if u in Greedy(P, k - 1) {
      j := GreedyFirst(P, k - 1, u);
    } else {
      j := k - 1;
    }
  }

  /** A target unmatched after b pairs was unmatched after every fewer. */
  lemma GreedyUnmatchedBefore(P: seq<Triple>, a: int, b: int, u: int)
    requires 0 <= a <= |P| && 0 <= b <= |P| && u in Greedy(P, a) && u !in Greedy(P, b)
    ensures b < a
  {
    if a <= b {
      GreedyGrows(P, a, b);
      assert false;
    }
  }

  lemma IntersectionSize(a: multiset<Card>, b: multiset<Card>)
    ensures |a * b| <= |a| && |a * b| <= |b|
    ensures |a * b| == |a| ==> a <= b
  {
    var i := a * b;
    assert a == i + (a - i);
    assert b == i + (b - i);
    if |i| == |a| {
      SubMultisetSameSize(i, a);
    }
  }

  /** In a descending list, an earlier pair sits at an earlier index. */
  lemma DescendingIndex(P: seq<Triple>, x: int, y: int)
    requires Descending(P) && 0 <= x < |P| && 0 <= y < |P| && Before(P[x], P[y])
    ensures x < y
  {
  }

  /** The pair of a floor group with itself, as the target of the same index. */
  function SelfPair(G: seq<multiset<Card>>, t: int): Triple
    requires 0 <= t < |G|
  {
    PairOf(G, G, t, t)
  }

  lemma SelfPairIndex(G: seq<multiset<Card>>, t: int) returns (s: int)
    requires 0 <= t < |G| && G[t] != multiset{}
    ensures 0 <= s < |SortedPairs(G, G)| && SortedPairs(G, G)[s] == SelfPair(G, t)
    ensures SelfPair(G, t).0 == |G[t]|
  {
    assert G[t] * G[t] == G[t];
    SortedPairsMembers(G, G);
    assert IsPair(G, G, SelfPair(G, t));
    assert SelfPair(G, t) in SortedPairs(G, G);
    var P := SortedPairs(G, G);
    s :| 0 <= s < |P| && P[s] == SelfPair(G, t);
  }

  /** The entry at j of the sorted list is the pair of its two groups. */
  lemma SortedPairAt(T: seq<multiset<Card>>, F: seq<multiset<Card>>, j: int)
    requires 0 <= j < |SortedPairs(T, F)|
    ensures IsPair(T, F, SortedPairs(T, F)[j])
  {
    SortedPairsMembers(T, F);
    assert SortedPairs(T, F)[j] in SortedPairs(T, F);
  }

  /** An entry at a lower index of the sorted list comes before one at a higher index. */
  lemma SortedPairsBefore(T: seq<multiset<Card>>, F: seq<multiset<Card>>, x: int, y: int)
    requires 0 <= x < y < |SortedPairs(T, F)|
    ensures Before(SortedPairs(T, F)[x], SortedPairs(T, F)[y])
  {
    SortedPairsFacts(T, F);
  }

  /**
   * A target that took the floor group of target t before t's own pair came
   * up has a higher index, and its own pair came up earlier still.
   */
  lemma StealerOrder(G: seq<multiset<Card>>, t: int, s: int, u: int, j: int) returns (su: int)
    requires 0 <= t < |G| && 0 <= u < |G| && u != t && G[u] != multiset{} && G[t] != multiset{}
    requires var P := SortedPairs(G, G); 0 <= s < |P| && P[s] == SelfPair(G, t) && 0 <= j < s && P[j].1 == u && P[j].2 == t
    ensures t < u && 0 <= su < j && SortedPairs(G, G)[su] == SelfPair(G, u)
  {
    var P := SortedPairs(G, G);
    SortedPairAt(G, G, j);
    assert P[j] == (|G[u] * G[t]|, u, t);
    assert G[t] * G[t] == G[t];
    IntersectionSize(G[u], G[t]);
    SortedPairsBefore(G, G, j, s);
    assert t < u;
    su := SelfPairIndex(G, u);
    assert G[u] * G[u] == G[u];
    assert Before(P[su], P[j]);
    if j <= su {
      if j < su {
        SortedPairsBefore(G, G, j, su);
      }
      assert false;
    }
  }

  /** Each target is matched no later than at the pair with its own floor group. */
  lemma {:induction false} SelfMatched(G: seq<multiset<Card>>, t: int, s: int)
    requires forall i :: 0 <= i < |G| ==> G[i] != multiset{}
    requires 0 <= t < |G| && 0 <= s < |SortedPairs(G, G)| && SortedPairs(G, G)[s] == SelfPair(G, t)
    ensures t in Greedy(SortedPairs(G, G), s + 1)
    decreases |G| - t
  {
    var P := SortedPairs(G, G);
    var m := Greedy(P, s);
    if t in m {
      GreedyGrows(P, s, s + 1);
    } else if t in Used(m) {
      var u :| u in m && m[u] == t;
      var j := GreedyFirst(P, s, u);
      SortedPairAt(G, G, j);
      var su := StealerOrder(G, t, s, u, j);
      SelfMatched(G, u, su);
      GreedyGrows(P, su + 1, j);
      assert false;
    }
  }

  /**
   * Planning a floor against itself: every group (none of them empty) is
   * matched to a floor group that holds all of its cards, so none of them
   * needs a card from anywhere else.
   */
  lemma SelfMatchFull(G: seq<multiset<Card>>)
    requires forall i :: 0 <= i < |G| ==> G[i] != multiset{}
    ensures forall t :: 0 <= t < |G| ==> t in Match(G, G) && 0 <= Match(G, G)[t] < |G| && G[t] <= G[Match(G, G)[t]]
  {
    var P := SortedPairs(G, G);
    var m := Match(G, G);
    SortedPairsFacts(G, G);
    forall t | 0 <= t < |G| ensures t in m && 0 <= m[t] < |G| && G[t] <= G[m[t]] {
      var s := SelfPairIndex(G, t);
      SelfMatched(G, t, s);
      GreedyGrows(P, s + 1, |P|);
      var j := GreedyFirst(P, |P|, t);
      GreedyUnmatchedBefore(P, s + 1, j, t);
      assert P[j] in P;
      if j < s {
        assert Before(P[j], P[s]);
      }
      IntersectionSize(G[t], G[m[t]]);
    }
  }
}
