// The meld rules: a set is three or four cards of one rank in distinct suits,
// a run is three or more cards of one suit with consecutive ranks, where the
// ace may sit below the two or above the king but never in between.
module Groups {
  import opened Util
  import opened Sorting
  import opened Cards

  function Ranks(g: seq<Card>): (t: seq<int>)
    ensures |t| == |g| && forall i :: 0 <= i < |g| ==> t[i] == g[i].rank as int
  {
    seq(|g|, i requires 0 <= i < |g| => g[i].rank as int)
  }

  function SuitsOf(g: seq<Card>): (t: seq<Suit>)
    ensures |t| == |g| && forall i :: 0 <= i < |g| ==> t[i] == g[i].suit
  {
    seq(|g|, i requires 0 <= i < |g| => g[i].suit)
  }

  function IntKey(x: int): int
  {
    x
  }

  /** Each element is one more than the one before it. */
  predicate Consecutive(t: seq<int>)
  {
    forall i :: 0 <= i < |t| - 1 ==> t[i] + 1 == t[i + 1]
  }

  /** The ranks with the ace counted as 14. */
  function AceAsFourteen(t: seq<int>): (h: seq<int>)
    ensures |h| == |t| && forall i :: 0 <= i < |t| ==> h[i] == (if t[i] == 1 then 14 else t[i])
  {
    seq(|t|, i requires 0 <= i < |t| => if t[i] == 1 then 14 else t[i])
  }

  /** is_valid_set: three or more cards, one rank, as many suits as cards. */
  predicate IsValidSet(g: seq<Card>)
  {
    |g| >= 3 && |Elements(Ranks(g))| == 1 && |Elements(SuitsOf(g))| == |g|
  }

  /**
   * is_valid_run: three or more cards, one suit, no repeated rank, and the
   * sorted ranks consecutive either as they are or with the ace as 14.
   */
  predicate IsValidRun(g: seq<Card>)
  {
    |g| >= 3 && |Elements(SuitsOf(g))| == 1 &&
    var ranks := SortBy(Ranks(g), IntKey);
    |ranks| == |Elements(ranks)| &&
    (Consecutive(ranks) ||
     (1 in ranks && 13 in ranks && Consecutive(SortBy(AceAsFourteen(ranks), IntKey))))
  }

  predicate IsValidGroup(g: seq<Card>)
  {
    IsValidSet(g) || IsValidRun(g)
  }

  predicate SameRank(g: seq<Card>)
  {
    forall i :: 0 <= i < |g| ==> g[i].rank == g[0].rank
  }

  predicate SameSuit(g: seq<Card>)
  {
    forall i :: 0 <= i < |g| ==> g[i].suit == g[0].suit
  }

  /** The cards a..b of one suit, in rank order. */
  function RunCards(a: int, b: int, s: Suit): (r: seq<Card>)
    requires 1 <= a && b <= 13 && a <= b + 1
    ensures |r| == b - a + 1 && forall i :: 0 <= i < |r| ==> r[i] == Card(a + i, s)
  {
    seq(b - a + 1, i requires 0 <= i < b - a + 1 => Card(a + i, s))
  }

  /** The cards a..K of one suit followed by the ace. */
  function AceRunCards(a: int, s: Suit): (r: seq<Card>)
    requires 2 <= a <= 13
  {
    RunCards(a, 13, s) + [Card(1, s)]
  }

  // ----- sets -----

  /** A valid set is three or more cards of one rank with pairwise different suits. */
  lemma ValidSetIff(g: seq<Card>)
    ensures IsValidSet(g) <==> |g| >= 3 && SameRank(g) && NoDup(SuitsOf(g))
  {
    ElementsSizeOne(Ranks(g));
    ElementsSize(SuitsOf(g));
  }

  /** There are only four suits, so a set never has more than four cards. */
  lemma ValidSetAtMostFour(g: seq<Card>)
    requires IsValidSet(g)
    ensures |g| <= 4
  {
    AtMostFourSuits(Elements(SuitsOf(g)));
  }

  lemma AtMostFourSuits(e: set<Suit>)
    ensures |e| <= 4
  {
    var all := {Spades, Hearts, Diamonds, Clubs};
    forall x | x in e ensures x in all {
      match x
      case Spades =>
      case Hearts =>
      case Diamonds =>
      case Clubs =>
    }
    var rest := all - e;
    assert all == e + rest;
    assert |all| == 4;
  }

  // ----- runs: from the definition to the shape -----

  lemma {:induction false} ConsecutiveValues(t: seq<int>, k: int)
    requires Consecutive(t) && 0 <= k < |t|
    ensures t[k] == t[0] + k
  {
    if k > 0 {
      ConsecutiveValues(t, k - 1);
    }
  }

  /** Cards with pairwise different ranks are pairwise different. */
  lemma DistinctRanksDistinctCards(g: seq<Card>)
    requires NoDup(Ranks(g))
    ensures NoDup(g)
  {
    forall i, j | 0 <= i < j < |g| ensures g[i] != g[j] {
      assert Ranks(g)[i] != Ranks(g)[j];
    }
  }

  /** The sorted ranks of a valid run repeat nothing, and neither do its cards. */
  lemma RunDistinct(g: seq<Card>)
    requires IsValidRun(g)
    ensures NoDup(SortBy(Ranks(g), IntKey)) && NoDup(Ranks(g)) && NoDup(g)
  {
    var t := SortBy(Ranks(g), IntKey);
    SortByFacts(Ranks(g), IntKey);
    ElementsSize(t);
    NoDupByMultiset(t);
    NoDupByMultiset(Ranks(g));
    DistinctRanksDistinctCards(g);
  }

  /** A normal run's ranks lie in a..b, with as many cards as ranks in that interval. */
  ghost predicate NormalRunShape(g: seq<Card>, a: int, b: int)
  {
    1 <= a && a + 2 <= b <= 13 && |g| == b - a + 1 &&
    forall c :: c in g ==> a <= c.rank <= b
  }

  /** An ace-high run's ranks lie in a..13 or are the ace, with a at least 2. */
  ghost predicate AceHighRunShape(g: seq<Card>, a: int)
  {
    2 <= a <= 12 && |g| == 15 - a &&
    forall c :: c in g ==> c.rank == 1 || a <= c.rank <= 13
  }

  lemma NormalShape(g: seq<Card>, t: seq<int>) returns (a: int, b: int)
    requires |g| >= 3 && t == SortBy(Ranks(g), IntKey) && Consecutive(t)
    ensures NormalRunShape(g, a, b)
  {
    SortByFacts(Ranks(g), IntKey);
    PermutationMembers(t, Ranks(g));
    a, b := t[0], t[0] + |t| - 1;
    ConsecutiveValues(t, |t| - 1);
    assert t[|t| - 1] in t && t[0] in t;
    forall c | c in g ensures a <= c.rank <= b {
      var i :| 0 <= i < |g| && g[i] == c;
      assert Ranks(g)[i] == c.rank;
      assert c.rank in Ranks(g);
      var k :| 0 <= k < |t| && t[k] == c.rank;
      ConsecutiveValues(t, k);
    }
  }

  /** The ranks of g sorted with the ace as 14: each lies in 2..14, and every rank of g appears. */
  lemma AceHighEntries(g: seq<Card>, t: seq<int>, h: seq<int>)
    requires t == SortBy(Ranks(g), IntKey) && h == SortBy(AceAsFourteen(t), IntKey)
    ensures |h| == |g|
    ensures forall k :: 0 <= k < |h| ==> 2 <= h[k] <= 14
    ensures 1 in t ==> 14 in h
    ensures forall c :: c in g && c.rank != 1 ==> c.rank in h
  {
    SortByFacts(Ranks(g), IntKey);
    SortByFacts(AceAsFourteen(t), IntKey);
    PermutationMembers(t, Ranks(g));
    PermutationMembers(h, AceAsFourteen(t));
    forall k | 0 <= k < |h| ensures 2 <= h[k] <= 14 {
      assert h[k] in h;
      var j :| 0 <= j < |t| && AceAsFourteen(t)[j] == h[k];
      assert t[j] in t;
    }
    if 1 in t {
      var one :| 0 <= one < |t| && t[one] == 1;
      assert AceAsFourteen(t)[one] == 14;
    }
    forall c | c in g && c.rank != 1 ensures c.rank in h {
      var i :| 0 <= i < |g| && g[i] == c;
      assert Ranks(g)[i] == c.rank;
      assert c.rank in Ranks(g);
      var j :| 0 <= j < |t| && t[j] == c.rank;
      assert AceAsFourteen(t)[j] == c.rank;
    }
  }

  lemma AceHighShape(g: seq<Card>, t: seq<int>) returns (a: int)
    requires |g| >= 3 && t == SortBy(Ranks(g), IntKey) && 1 in t
    requires Consecutive(SortBy(AceAsFourteen(t), IntKey))
    ensures AceHighRunShape(g, a)
  {
    var h := SortBy(AceAsFourteen(t), IntKey);
    AceHighEntries(g, t, h);
    var n := |h|;
    var top :| 0 <= top < n && h[top] == 14;
    ConsecutiveValues(h, top);
    ConsecutiveValues(h, n - 1);
    a := h[0];
    forall c | c in g ensures c.rank == 1 || a <= c.rank <= 13 {
      if c.rank != 1 {
        var k :| 0 <= k < n && h[k] == c.rank;
        ConsecutiveValues(h, k);
      }
    }
  }

  /**
   * A valid run is one suit without repeats, shaped as a..b (ace low or no ace)
   * or as a..K plus the ace.
   */
  lemma RunShape(g: seq<Card>) returns (a: int, b: int, aceHigh: bool)
    requires IsValidRun(g)
    ensures SameSuit(g) && NoDup(g)
    ensures !aceHigh ==> NormalRunShape(g, a, b)
    ensures aceHigh ==> AceHighRunShape(g, a)
  {
    ElementsSizeOne(SuitsOf(g));
    RunDistinct(g);
    var t := SortBy(Ranks(g), IntKey);
    if Consecutive(t) {
      aceHigh := false;
      a, b := NormalShape(g, t);
    } else {
      aceHigh := true;
      a := AceHighShape(g, t);
      b := 13;
    }
  }

  /** No run passes from the king over the ace to the two, except the full thirteen-card suit. */
  lemma NoWraparound(g: seq<Card>)
    requires IsValidRun(g)
    requires exists c :: c in g && c.rank == 13
    requires exists c :: c in g && c.rank == 1
    requires exists c :: c in g && c.rank == 2
    ensures |g| == 13
  {
    var a, b, aceHigh := RunShape(g);
    var ace :| ace in g && ace.rank == 1;
    var two :| two in g && two.rank == 2;
    var king :| king in g && king.rank == 13;
  }

  // ----- runs: from the shape to the definition -----

  lemma ConsecutiveFrom(t: seq<int>, a: int)
    requires forall i :: 0 <= i < |t| ==> t[i] == a + i
    ensures Consecutive(t) && SortedBy(t, IntKey) && NoDup(t)
  {
  }

  /** a..b of one suit is a valid run whenever it has at least three cards. */
  lemma RunCardsValid(a: int, b: int, s: Suit)
    requires 1 <= a && a + 2 <= b <= 13
    ensures IsValidRun(RunCards(a, b, s))
  {
    var g := RunCards(a, b, s);
    ConsecutiveFrom(Ranks(g), a);
    SortBySortedIsIdentity(Ranks(g), IntKey);
    ElementsSize(Ranks(g));
    ElementsSizeOne(SuitsOf(g));
  }

  /** The ace first, then a..13. */
  function AceLowOrder(a: int): seq<int>
    requires 2 <= a <= 13
  {
    [1] + seq(14 - a, i requires 0 <= i < 14 - a => a + i)
  }

  lemma AceRunSortedRanks(a: int, s: Suit)
    requires 2 <= a <= 12
    ensures SortBy(Ranks(AceRunCards(a, s)), IntKey) == AceLowOrder(a)
  {
    var low := AceLowOrder(a);
    AceRunRanks(a, s);
    SortBySortedIsIdentity(low, IntKey);
    SortByUnique(Ranks(AceRunCards(a, s)), low, IntKey);
  }

  /** The ranks of a..K plus the ace, rearranged with the ace first, are sorted. */
  lemma AceRunRanks(a: int, s: Suit)
    requires 2 <= a <= 12
    ensures multiset(Ranks(AceRunCards(a, s))) == multiset(AceLowOrder(a))
    ensures SortedBy(AceLowOrder(a), IntKey)
  {
    var mid := seq(14 - a, i requires 0 <= i < 14 - a => a + i);
    AceRunRanksAre(a, s, mid);
  }

  lemma AceRunRanksAre(a: int, s: Suit, mid: seq<int>)
    requires 2 <= a <= 12 && mid == seq(14 - a, i requires 0 <= i < 14 - a => a + i)
    ensures Ranks(AceRunCards(a, s)) == mid + [1] && AceLowOrder(a) == [1] + mid
  {
  }

  lemma AceLowOrderHigh(a: int)
    requires 2 <= a <= 12
    ensures Consecutive(SortBy(AceAsFourteen(AceLowOrder(a)), IntKey))
  {
    var t := AceLowOrder(a);
    var high := seq(15 - a, i requires 0 <= i < 15 - a => a + i);
    assert AceAsFourteen(t) == [14] + high[..14 - a];
    assert high == high[..14 - a] + [14];
    assert multiset(high) == multiset(AceAsFourteen(t));
    ConsecutiveFrom(high, a);
    SortByFacts(AceAsFourteen(t), IntKey);
    SortedUnique(high, SortBy(AceAsFourteen(t), IntKey), IntKey);
  }

  /** a..K plus the ace of one suit is a valid run. */
  lemma AceRunCardsValid(a: int, s: Suit)
    requires 2 <= a <= 12
    ensures IsValidRun(AceRunCards(a, s))
  {
    var g := AceRunCards(a, s);
    AceRunSortedRanks(a, s);
    var t := AceLowOrder(a);
    assert NoDup(t);
    ElementsSize(t);
    ElementsSizeOne(SuitsOf(g));
    assert t[0] == 1 && t[|t| - 1] == 13;
    AceLowOrderHigh(a);
  }
}
