// The solver's candidate groups for one card: every set and every run that
// contains it and uses only cards present in the pool.  The pure versions take
// the pool's multiset; the *In versions read the count matrix and agree with
// them.
module Enumerate {
  import opened Util
  import opened Cards
  import opened Groups
  import opened Pool

  function Max(a: int, b: int): int
  {
    if a >= b then a else b
  }

  // ----- sets: _sets_containing -----

  /** The suits other than `suit`, in SUITS order, in which P holds a card of `rank`. */
  function OtherSuits(rank: Rank, suit: Suit, P: multiset<Card>): (r: seq<Suit>)
    ensures NoDup(r)
    ensures forall s :: s in r <==> s != suit && Card(rank, s) in P
  {
    FilterNoDup(SUITS, set s | s in SUITS && s != suit && P[Card(rank, s)] > 0);
    assert suit in SUITS;
    Filter(SUITS, set s | s in SUITS && s != suit && P[Card(rank, s)] > 0)
  }

  /** (suit,) + combo, as cards of one rank. */
  function SetCards(rank: Rank, suit: Suit, combo: seq<Suit>): (g: seq<Card>)
    ensures |g| == |combo| + 1 && g[0] == Card(rank, suit)
    ensures forall i :: 0 <= i < |combo| ==> g[i + 1] == Card(rank, combo[i])
  {
    [Card(rank, suit)] + seq(|combo|, i requires 0 <= i < |combo| => Card(rank, combo[i]))
  }

  function SetsOf(rank: Rank, suit: Suit, combos: seq<seq<Suit>>): (r: seq<seq<Card>>)
    ensures |r| == |combos| && forall i :: 0 <= i < |combos| ==> r[i] == SetCards(rank, suit, combos[i])
  {
    seq(|combos|, i requires 0 <= i < |combos| => SetCards(rank, suit, combos[i]))
  }

  /** The sets for every combination size from `size` up to all the other suits. */
  function SetsFromSize(rank: Rank, suit: Suit, others: seq<Suit>, size: nat): seq<seq<Card>>
    decreases |others| + 1 - size
  {
    if size > |others| then []
    else SetsOf(rank, suit, Combinations(others, size)) + SetsFromSize(rank, suit, others, size + 1)
  }

  function SetsContaining(rank: Rank, suit: Suit, P: multiset<Card>): seq<seq<Card>>
  {
    SetsFromSize(rank, suit, OtherSuits(rank, suit, P), 2)
  }

  lemma {:induction false} SetsFromSizeMember(rank: Rank, suit: Suit, others: seq<Suit>, size: nat, g: seq<Card>)
    returns (combo: seq<Suit>)
    requires g in SetsFromSize(rank, suit, others, size)
    ensures g == SetCards(rank, suit, combo)
    ensures exists k :: size <= k <= |others| && combo in Combinations(others, k)
    decreases |others| + 1 - size
  {
    if g in SetsOf(rank, suit, Combinations(others, size)) {
      combo := SetsOfMember(rank, suit, Combinations(others, size), g);
    } else {
      combo := SetsFromSizeMember(rank, suit, others, size + 1, g);
    }
  }

  lemma SetsOfMember(rank: Rank, suit: Suit, cs: seq<seq<Suit>>, g: seq<Card>) returns (combo: seq<Suit>)
    requires g in SetsOf(rank, suit, cs)
    ensures g == SetCards(rank, suit, combo) && combo in cs
  {
    var here := SetsOf(rank, suit, cs);
    var i :| 0 <= i < |here| && here[i] == g;
    combo := cs[i];
  }

  lemma {:induction false} SetsFromSizeContains(rank: Rank, suit: Suit, others: seq<Suit>, size: nat, combo: seq<Suit>)
    requires size <= |combo| <= |others| && combo in Combinations(others, |combo|)
    ensures SetCards(rank, suit, combo) in SetsFromSize(rank, suit, others, size)
    decreases |others| + 1 - size
  {
    if size == |combo| {
      var cs := Combinations(others, size);
      var i :| 0 <= i < |cs| && cs[i] == combo;
      assert SetsOf(rank, suit, cs)[i] == SetCards(rank, suit, combo);
    } else {
      SetsFromSizeContains(rank, suit, others, size + 1, combo);
    }
  }

  /** The cards of (suit,) + combo repeat nothing when combo repeats nothing and avoids suit. */
  lemma SetCardsDistinct(rank: Rank, suit: Suit, combo: seq<Suit>)
    requires NoDup(combo) && suit !in combo
    ensures NoDup(SuitsOf(SetCards(rank, suit, combo))) && NoDup(SetCards(rank, suit, combo))
    ensures SameRank(SetCards(rank, suit, combo))
  {
    var g := SetCards(rank, suit, combo);
    forall i, j | 0 <= i < j < |g| ensures g[i].suit != g[j].suit {
      if i == 0 {
        assert g[j].suit == combo[j - 1];
      } else {
        assert g[i].suit == combo[i - 1] && g[j].suit == combo[j - 1];
      }
    }
  }

  /** Every candidate set is a valid set holding the card, made of cards of P. */
  lemma SetsContainingSound(rank: Rank, suit: Suit, P: multiset<Card>, g: seq<Card>)
    requires Card(rank, suit) in P && g in SetsContaining(rank, suit, P)
    ensures IsValidSet(g) && Card(rank, suit) in g && multiset(g) <= P
  {
    var others := OtherSuits(rank, suit, P);
    var combo := SetsFromSizeMember(rank, suit, others, 2, g);
    var k :| 2 <= k <= |others| && combo in Combinations(others, k);
    CombinationMembers(others, k, combo);
    SetCardsDistinct(rank, suit, combo);
    ValidSetIff(g);
    SetCardsInPool(rank, suit, P, combo);
    NoDupSubMultiset(g, P);
  }

  /** A set built from suits in which P holds the rank is made of cards of P. */
  lemma SetCardsInPool(rank: Rank, suit: Suit, P: multiset<Card>, combo: seq<Suit>)
    requires Card(rank, suit) in P
    requires forall s :: s in combo ==> s in OtherSuits(rank, suit, P)
    ensures forall x :: x in SetCards(rank, suit, combo) ==> x in P
  {
    var g := SetCards(rank, suit, combo);
    forall x | x in g ensures x in P {
      var i :| 0 <= i < |g| && g[i] == x;
      if i > 0 {
        assert combo[i - 1] in combo;
      }
    }
  }

  /** The cards of a set holding (rank, suit) all have that rank and are pairwise distinct. */
  lemma SetCardsOfRank(rank: Rank, suit: Suit, g: seq<Card>)
    requires SameRank(g) && NoDup(SuitsOf(g)) && Card(rank, suit) in g
    ensures NoDup(g) && forall c :: c in g ==> c.rank == rank
  {
    var i0 :| 0 <= i0 < |g| && g[i0] == Card(rank, suit);
    forall c | c in g ensures c.rank == rank {
      var i :| 0 <= i < |g| && g[i] == c;
      assert g[i].rank == g[0].rank == g[i0].rank;
    }
    forall i, j | 0 <= i < j < |g| ensures g[i] != g[j] {
      assert SuitsOf(g)[i] != SuitsOf(g)[j];
    }
  }

  /** Each card of a set built from suits held by g is a card of g. */
  lemma SetCardsWithin(rank: Rank, suit: Suit, combo: seq<Suit>, g: seq<Card>)
    requires Card(rank, suit) in g
    requires forall s :: s in combo ==> Card(rank, s) in g
    ensures forall x :: x in SetCards(rank, suit, combo) ==> x in g
  {
    var h := SetCards(rank, suit, combo);
    forall x | x in h ensures x in g {
      var i :| 0 <= i < |h| && h[i] == x;
      if i > 0 {
        assert combo[i - 1] in combo;
      }
    }
  }

  /** The suits of g, in a set of one rank, name cards of g. */
  lemma KeptSuitsInSet(rank: Rank, g: seq<Card>, keep: set<Suit>, combo: seq<Suit>)
    requires forall c :: c in g ==> c.rank == rank
    requires keep == set c | c in g :: c.suit
    requires forall s :: s in combo ==> s in keep
    ensures forall s :: s in combo ==> Card(rank, s) in g
  {
    forall s | s in combo ensures Card(rank, s) in g {
      var c :| c in g && c.suit == s;
      assert c == Card(rank, s);
    }
  }

  /** Each card of g is a card of the built set. */
  lemma SetCardsCover(rank: Rank, suit: Suit, P: multiset<Card>, g: seq<Card>, keep: set<Suit>)
    requires forall c :: c in g ==> c.rank == rank
    requires multiset(g) <= P
    requires keep == set c | c in g :: c.suit
    ensures forall x :: x in g ==> x in SetCards(rank, suit, Filter(OtherSuits(rank, suit, P), keep))
  {
    var others := OtherSuits(rank, suit, P);
    var combo := Filter(others, keep);
    var h := SetCards(rank, suit, combo);
    forall x | x in g ensures x in h {
      if x.suit != suit {
        assert x in multiset(g);
        assert x.suit in others;
        assert x.suit in combo;
        var j :| 0 <= j < |combo| && combo[j] == x.suit;
        assert h[j + 1] == x;
      }
    }
  }

  lemma SetCompleteCore(rank: Rank, suit: Suit, P: multiset<Card>, g: seq<Card>) returns (h: seq<Card>)
    requires |g| >= 3 && SameRank(g) && NoDup(SuitsOf(g))
    requires Card(rank, suit) in g && multiset(g) <= P
    ensures h in SetsContaining(rank, suit, P) && multiset(h) == multiset(g)
  {
    var others := OtherSuits(rank, suit, P);
    var keep := set c | c in g :: c.suit;
    var combo := Filter(others, keep);
    FilterIsCombination(others, keep);
    FilterNoDup(others, keep);
    h := SetCards(rank, suit, combo);
    SetCardsDistinct(rank, suit, combo);
    SetCardsOfRank(rank, suit, g);
    KeptSuitsInSet(rank, g, keep, combo);
    SetCardsWithin(rank, suit, combo, g);
    SetCardsCover(rank, suit, P, g, keep);
    NoDupSameMembers(h, g);
    assert |h| == |multiset(h)| == |multiset(g)| == |g|;
    SetsFromSizeContains(rank, suit, others, 2, combo);
  }

  /** Every valid set holding the card and made of cards of P is a candidate, up to order. */
  lemma SetsContainingComplete(rank: Rank, suit: Suit, P: multiset<Card>, g: seq<Card>) returns (h: seq<Card>)
    requires IsValidSet(g) && Card(rank, suit) in g && multiset(g) <= P
    ensures h in SetsContaining(rank, suit, P) && multiset(h) == multiset(g)
  {
    ValidSetIff(g);
    h := SetCompleteCore(rank, suit, P, g);
  }

  /** With the other three suits of a rank present there are exactly four candidate sets. */
  lemma FourSetsWhenAllSuitsPresent(rank: Rank, P: multiset<Card>)
    requires Card(rank, Hearts) in P && Card(rank, Diamonds) in P && Card(rank, Clubs) in P
    ensures |SetsContaining(rank, Spades, P)| == 4
  {
    var others := OtherSuits(rank, Spades, P);
    OthersWhenAllPresent(rank, P);
    assert SetsFromSize(rank, Spades, others, 4) == [];
    assert SetsFromSize(rank, Spades, others, 3) == SetsOf(rank, Spades, Combinations(others, 3));
    assert SetsContaining(rank, Spades, P) ==
      SetsOf(rank, Spades, Combinations(others, 2)) + SetsFromSize(rank, Spades, others, 3);
    CombinationsCount(others, 2);
    CombinationsCount(others, 3);
    assert Binomial(3, 2) == 3 && Binomial(3, 3) == 1;
  }

  lemma OthersWhenAllPresent(rank: Rank, P: multiset<Card>)
    requires Card(rank, Hearts) in P && Card(rank, Diamonds) in P && Card(rank, Clubs) in P
    ensures OtherSuits(rank, Spades, P) == [Hearts, Diamonds, Clubs]
  {
    var keep := set s | s in SUITS && s != Spades && P[Card(rank, s)] > 0;
    assert Spades !in keep && Hearts in keep && Diamonds in keep && Clubs in keep;
    assert SUITS[1..] == [Hearts, Diamonds, Clubs] && SUITS[2..] == [Diamonds, Clubs];
    assert SUITS[3..] == [Clubs] && SUITS[4..] == [];
    assert Filter(SUITS[3..], keep) == [Clubs];
    assert Filter(SUITS[2..], keep) == [Diamonds, Clubs];
    assert Filter(SUITS[1..], keep) == [Hearts, Diamonds, Clubs];
  }

  // ----- runs: _runs_containing -----

  /** The ranks held in `suit`. */
  function AvailRanks(suit: Suit, P: multiset<Card>): (r: set<int>)
    ensures forall k :: k in r <==> 1 <= k <= 13 && Card(k, suit) in P
  {
    set k | 1 <= k <= 13 && P[Card(k, suit)] > 0
  }

  /** Walk down from lo while the rank below is held (and at least 1). */
  function LowEnd(lo: int, avail: set<int>): (r: int)
    requires 1 <= lo <= 13
    ensures 1 <= r <= lo && forall k :: r <= k < lo ==> k in avail
    decreases lo
  {
    if lo - 1 >= 1 && lo - 1 in avail then LowEnd(lo - 1, avail) else lo
  }

  /** Walk up from hi while the rank above is held (and at most 13). */
  function HighEnd(hi: int, avail: set<int>): (r: int)
    requires 1 <= hi <= 13
    ensures hi <= r <= 13 && forall k :: hi < k <= r ==> k in avail
    decreases 13 - hi
  {
    if hi + 1 <= 13 && hi + 1 in avail then HighEnd(hi + 1, avail) else hi
  }

  /** Walk down from lo while the rank below is held, stopping at 2. */
  function AceLowEnd(lo: int, avail: set<int>): (r: int)
    requires 2 <= lo <= 13
    ensures 2 <= r <= lo && forall k :: r <= k < lo ==> k in avail
    decreases lo
  {
    if lo - 1 >= 2 && lo - 1 in avail then AceLowEnd(lo - 1, avail) else lo
  }

  lemma {:induction false} LowEndReaches(lo: int, avail: set<int>, a: int)
    requires 1 <= a <= lo <= 13 && forall k :: a <= k < lo ==> k in avail
    ensures LowEnd(lo, avail) <= a
    decreases lo
  {
    if lo > a {
      LowEndReaches(lo - 1, avail, a);
    }
  }

  lemma {:induction false} HighEndReaches(hi: int, avail: set<int>, b: int)
    requires 1 <= hi <= b <= 13 && forall k :: hi < k <= b ==> k in avail
    ensures HighEnd(hi, avail) >= b
    decreases 13 - hi
  {
    if hi < b {
      HighEndReaches(hi + 1, avail, b);
    }
  }

  lemma {:induction false} AceLowEndReaches(lo: int, avail: set<int>, a: int)
    requires 2 <= a <= lo <= 13 && forall k :: a <= k < lo ==> k in avail
    ensures AceLowEnd(lo, avail) <= a
    decreases lo
  {
    if lo > a {
      AceLowEndReaches(lo - 1, avail, a);
    }
  }

  /** The runs start..end for end from `end` up to hi. */
  function EndsFrom(start: int, end: int, hi: int, suit: Suit): seq<seq<Card>>
    requires 1 <= start <= end && hi <= 13
    decreases hi - end + 1
  {
    if end > hi then [] else [RunCards(start, end, suit)] + EndsFrom(start, end + 1, hi, suit)
  }

  /** The runs start..end for start from `start` up to rank, ending at or after rank. */
  function NormalRuns(start: int, rank: int, hi: int, suit: Suit): seq<seq<Card>>
    requires 1 <= start && hi <= 13
    decreases rank - start + 1
  {
    if start > rank then []
    else EndsFrom(start, Max(rank, start + 2), hi, suit) + NormalRuns(start + 1, rank, hi, suit)
  }

  /** The ace-high runs start..13 + [ace] for start from `start` up to 12 that hold the rank. */
  function AceHighRuns(start: int, rank: int, suit: Suit): seq<seq<Card>>
    requires 2 <= start
    decreases 13 - start
  {
    if start >= 13 then []
    else (if start <= rank || rank == 1 then [AceRunCards(start, suit)] else []) + AceHighRuns(start + 1, rank, suit)
  }

  function RunsFromAvail(rank: Rank, suit: Suit, avail: set<int>): seq<seq<Card>>
  {
    if rank !in avail then []
    else
      NormalRuns(LowEnd(rank, avail), rank, HighEnd(rank, avail), suit) +
      (if 1 in avail && 13 in avail then AceHighRuns(AceLowEnd(13, avail), rank, suit) else [])
  }

  function RunsContaining(rank: Rank, suit: Suit, P: multiset<Card>): seq<seq<Card>>
  {
    RunsFromAvail(rank, suit, AvailRanks(suit, P))
  }

  lemma {:induction false} EndsFromMember(start: int, end: int, hi: int, suit: Suit, g: seq<Card>) returns (b: int)
    requires 1 <= start <= end && hi <= 13 && g in EndsFrom(start, end, hi, suit)
    ensures end <= b <= hi && g == RunCards(start, b, suit)
    decreases hi - end + 1
  {
    if g == RunCards(start, end, suit) {
      b := end;
    } else {
      b := EndsFromMember(start, end + 1, hi, suit, g);
    }
  }

  lemma {:induction false} NormalRunsMember(start: int, rank: int, hi: int, suit: Suit, g: seq<Card>) returns (a: int, b: int)
    requires 1 <= start && hi <= 13 && g in NormalRuns(start, rank, hi, suit)
    ensures start <= a <= rank <= b <= hi && a + 2 <= b && g == RunCards(a, b, suit)
    decreases rank - start + 1
  {
    var here := EndsFrom(start, Max(rank, start + 2), hi, suit);
    if g in here {
      a := start;
      b := EndsFromMember(start, Max(rank, start + 2), hi, suit, g);
    } else {
      a, b := NormalRunsMember(start + 1, rank, hi, suit, g);
    }
  }

  lemma {:induction false} AceHighRunsMember(start: int, rank: int, suit: Suit, g: seq<Card>) returns (a: int)
    requires 2 <= start && g in AceHighRuns(start, rank, suit)
    ensures start <= a <= 12 && (a <= rank || rank == 1) && g == AceRunCards(a, suit)
    decreases 13 - start
  {
    if start <= rank || rank == 1 {
      if g == AceRunCards(start, suit) {
        a := start;
        return;
      }
    }
    a := AceHighRunsMember(start + 1, rank, suit, g);
  }

  lemma {:induction false} EndsFromContains(start: int, end: int, hi: int, suit: Suit, b: int)
    requires 1 <= start <= end <= b <= hi <= 13
    ensures RunCards(start, b, suit) in EndsFrom(start, end, hi, suit)
    decreases hi - end + 1
  {
    if end < b {
      EndsFromContains(start, end + 1, hi, suit, b);
    }
  }

  lemma {:induction false} NormalRunsContains(start: int, rank: int, hi: int, suit: Suit, a: int, b: int)
    requires 1 <= start <= a <= rank <= b <= hi <= 13 && a + 2 <= b
    ensures RunCards(a, b, suit) in NormalRuns(start, rank, hi, suit)
    decreases rank - start + 1
  {
    if start == a {
      EndsFromContains(a, Max(rank, a + 2), hi, suit, b);
    } else {
      NormalRunsContains(start + 1, rank, hi, suit, a, b);
    }
  }

  lemma {:induction false} AceHighRunsContains(start: int, rank: int, suit: Suit, a: int)
    requires 2 <= start <= a <= 12 && (a <= rank || rank == 1)
    ensures AceRunCards(a, suit) in AceHighRuns(start, rank, suit)
    decreases 13 - start
  {
    if start < a {
      AceHighRunsContains(start + 1, rank, suit, a);
    }
  }

  lemma RunCardsInPool(a: int, b: int, suit: Suit, P: multiset<Card>)
    requires 1 <= a <= b <= 13 && forall k :: a <= k <= b ==> k in AvailRanks(suit, P)
    ensures multiset(RunCards(a, b, suit)) <= P && NoDup(RunCards(a, b, suit))
  {
    var g := RunCards(a, b, suit);
    forall i, j | 0 <= i < j < |g| ensures g[i] != g[j] {
      assert g[i].rank != g[j].rank;
    }
    forall x | x in g ensures x in P {
      var i :| 0 <= i < |g| && g[i] == x;
      assert a + i in AvailRanks(suit, P);
    }
    NoDupSubMultiset(g, P);
  }

  /** The ace-high run a..K, A holds each of its cards once, all from P. */
  lemma AceRunCardsInPool(a: int, suit: Suit, P: multiset<Card>)
    requires 2 <= a <= 12 && 1 in AvailRanks(suit, P)
    requires forall k :: a <= k <= 13 ==> k in AvailRanks(suit, P)
    ensures multiset(AceRunCards(a, suit)) <= P && NoDup(AceRunCards(a, suit))
  {
    var g := AceRunCards(a, suit);
    forall i, j | 0 <= i < j < |g| ensures g[i] != g[j] {
      assert g[i].rank != g[j].rank;
    }
    forall x | x in g ensures x in P {
      var i :| 0 <= i < |g| && g[i] == x;
      if i < |g| - 1 {
        assert a + i in AvailRanks(suit, P);
      }
    }
    NoDupSubMultiset(g, P);
  }

  lemma NormalRunSound(rank: Rank, suit: Suit, P: multiset<Card>, a: int, b: int)
    requires 1 <= a <= rank <= b <= 13 && a + 2 <= b
    requires forall k :: a <= k <= b ==> k in AvailRanks(suit, P)
    ensures IsValidRun(RunCards(a, b, suit)) && Card(rank, suit) in RunCards(a, b, suit)
    ensures multiset(RunCards(a, b, suit)) <= P
  {
    RunCardsValid(a, b, suit);
    assert RunCards(a, b, suit)[rank - a] == Card(rank, suit);
    RunCardsInPool(a, b, suit, P);
  }

  lemma AceHighRunSound(rank: Rank, suit: Suit, P: multiset<Card>, a: int)
    requires 2 <= a <= 12 && (a <= rank || rank == 1)
    requires 1 in AvailRanks(suit, P) && forall k :: a <= k <= 13 ==> k in AvailRanks(suit, P)
    ensures IsValidRun(AceRunCards(a, suit)) && Card(rank, suit) in AceRunCards(a, suit)
    ensures multiset(AceRunCards(a, suit)) <= P
  {
    AceRunCardsValid(a, suit);
    AceRunHolds(rank, suit, a);
    AceRunCardsInPool(a, suit, P);
  }

  lemma AceRunHolds(rank: Rank, suit: Suit, a: int)
    requires 2 <= a <= 12 && (a <= rank || rank == 1)
    ensures Card(rank, suit) in AceRunCards(a, suit)
  {
    var g := AceRunCards(a, suit);
    if rank == 1 {
      assert g[|g| - 1] == Card(rank, suit);
    } else {
      assert g[rank - a] == Card(rank, suit);
    }
  }

  /** Every candidate run is a valid run holding the card, made of cards of P. */
  lemma RunsContainingSound(rank: Rank, suit: Suit, P: multiset<Card>, g: seq<Card>)
    requires g in RunsContaining(rank, suit, P)
    ensures IsValidRun(g) && Card(rank, suit) in g && multiset(g) <= P
  {
    var avail := AvailRanks(suit, P);
    assert rank in avail;
    if g in NormalRuns(LowEnd(rank, avail), rank, HighEnd(rank, avail), suit) {
      NormalCandidateSound(rank, suit, P, avail, g);
    } else {
      AceCandidateSound(rank, suit, P, avail, g);
    }
  }

  lemma NormalCandidateSound(rank: Rank, suit: Suit, P: multiset<Card>, avail: set<int>, g: seq<Card>)
    requires avail == AvailRanks(suit, P) && rank in avail
    requires g in NormalRuns(LowEnd(rank, avail), rank, HighEnd(rank, avail), suit)
    ensures IsValidRun(g) && Card(rank, suit) in g && multiset(g) <= P
  {
    var lo, hi := LowEnd(rank, avail), HighEnd(rank, avail);
    var a, b := NormalRunsMember(lo, rank, hi, suit, g);
    forall k | a <= k <= b ensures k in avail {
      if k < rank {
        assert lo <= k < rank;
      } else if k > rank {
        assert rank < k <= hi;
      }
    }
    NormalRunSound(rank, suit, P, a, b);
  }

  lemma AceCandidateSound(rank: Rank, suit: Suit, P: multiset<Card>, avail: set<int>, g: seq<Card>)
    requires avail == AvailRanks(suit, P) && rank in avail
    requires 1 in avail && 13 in avail && g in AceHighRuns(AceLowEnd(13, avail), rank, suit)
    ensures IsValidRun(g) && Card(rank, suit) in g && multiset(g) <= P
  {
    var aceLo := AceLowEnd(13, avail);
    var a := AceHighRunsMember(aceLo, rank, suit, g);
    AceRanksFrom(a, avail);
    AceHighRunSound(rank, suit, P, a);
  }

  /** Every rank from a start at or above the ace-high low end up to the king is held. */
  lemma AceRanksFrom(a: int, avail: set<int>)
    requires 13 in avail && AceLowEnd(13, avail) <= a <= 12
    ensures forall k :: a <= k <= 13 ==> k in avail
  {
    var aceLo := AceLowEnd(13, avail);
    forall k | a <= k <= 13 ensures k in avail {
      if k < 13 {
        assert aceLo <= k < 13;
      }
    }
  }

  /** A duplicate-free group whose cards all occur in a duplicate-free group of the same length equals it up to order. */
  lemma SameCardsAs(g: seq<Card>, r: seq<Card>)
    requires NoDup(g) && NoDup(r) && |g| == |r|
    requires forall x :: x in g ==> x in r
    ensures multiset(g) == multiset(r)
  {
    NoDupSubMultiset(g, multiset(r));
    SubMultisetSameSize(multiset(g), multiset(r));
  }

  /** The cards of a run holding (rank, suit) are all of that suit and all in P. */
  lemma RunCardsOfSuit(rank: Rank, suit: Suit, P: multiset<Card>, g: seq<Card>)
    requires SameSuit(g) && Card(rank, suit) in g && multiset(g) <= P
    ensures forall x :: x in g ==> x.suit == suit && x in P
  {
    var i0 :| 0 <= i0 < |g| && g[i0] == Card(rank, suit);
    forall x | x in g ensures x.suit == suit && x in P {
      var i :| 0 <= i < |g| && g[i] == x;
      assert g[i].suit == g[0].suit == g[i0].suit;
      assert x in multiset(g);
    }
  }

  lemma NormalRunComplete(rank: Rank, suit: Suit, P: multiset<Card>, g: seq<Card>, a: int, b: int) returns (h: seq<Card>)
    requires NoDup(g) && NormalRunShape(g, a, b) && Card(rank, suit) in g && multiset(g) <= P
    requires forall x :: x in g ==> x.suit == suit
    ensures h in RunsContaining(rank, suit, P) && multiset(h) == multiset(g)
  {
    var avail := AvailRanks(suit, P);
    h := RunCards(a, b, suit);
    NormalRunSameCards(g, a, b, suit);
    RanksHeld(h, g, P, a, suit);
    forall k | a <= k <= b ensures k in avail {
      assert h[k - a].rank == k;
    }
    LowEndReaches(rank, avail, a);
    HighEndReaches(rank, avail, b);
    NormalRunsContains(LowEnd(rank, avail), rank, HighEnd(rank, avail), suit, a, b);
  }

  /** A normal-run-shaped group of one suit holds exactly the cards a..b. */
  lemma NormalRunSameCards(g: seq<Card>, a: int, b: int, suit: Suit)
    requires NoDup(g) && NormalRunShape(g, a, b)
    requires forall x :: x in g ==> x.suit == suit
    ensures multiset(RunCards(a, b, suit)) == multiset(g)
  {
    var h := RunCards(a, b, suit);
    forall x | x in g ensures x in h {
      assert h[x.rank - a] == x;
    }
    forall i, j | 0 <= i < j < |h| ensures h[i] != h[j] {
      assert h[i].rank != h[j].rank;
    }
    SameCardsAs(g, h);
  }

  /** When h holds the same cards as g, which come from P, the ranks of h's cards are available. */
  lemma RanksHeld(h: seq<Card>, g: seq<Card>, P: multiset<Card>, a: int, suit: Suit)
    requires multiset(h) == multiset(g) && multiset(g) <= P
    requires forall i :: 0 <= i < |h| ==> h[i] == Card(h[i].rank, suit)
    ensures forall i :: 0 <= i < |h| ==> h[i].rank in AvailRanks(suit, P)
  {
    forall i | 0 <= i < |h| ensures h[i].rank in AvailRanks(suit, P) {
      assert h[i] in multiset(g);
    }
  }

  lemma AceHighRunComplete(rank: Rank, suit: Suit, P: multiset<Card>, g: seq<Card>, a: int) returns (h: seq<Card>)
    requires NoDup(g) && AceHighRunShape(g, a) && Card(rank, suit) in g && multiset(g) <= P
    requires forall x :: x in g ==> x.suit == suit
    ensures h in RunsContaining(rank, suit, P) && multiset(h) == multiset(g)
  {
    h := AceRunCards(a, suit);
    AceRunHeld(rank, suit, P, g, a);
    AceRunIsCandidate(rank, suit, P, AvailRanks(suit, P), a);
  }

  /** An ace-high-shaped group of one suit from P holds the cards of the ace-high run a..K, A, whose ranks are all held. */
  lemma AceRunHeld(rank: Rank, suit: Suit, P: multiset<Card>, g: seq<Card>, a: int)
    requires NoDup(g) && AceHighRunShape(g, a) && Card(rank, suit) in g && multiset(g) <= P
    requires forall x :: x in g ==> x.suit == suit
    ensures multiset(AceRunCards(a, suit)) == multiset(g)
    ensures (a <= rank || rank == 1) && 1 in AvailRanks(suit, P)
    ensures forall k :: a <= k <= 13 ==> k in AvailRanks(suit, P)
  {
    var h := AceRunCards(a, suit);
    AceRunSameCards(g, a, suit);
    RanksHeld(h, g, P, a, suit);
    AceRunRanksHeld(rank, suit, AvailRanks(suit, P), h, a);
  }

  /** The ace-high run a..K, A is listed once all its ranks are held and it holds the rank. */
  lemma AceRunIsCandidate(rank: Rank, suit: Suit, P: multiset<Card>, avail: set<int>, a: int)
    requires avail == AvailRanks(suit, P) && 2 <= a <= 12 && (a <= rank || rank == 1)
    requires 1 in avail && forall k :: a <= k <= 13 ==> k in avail
    ensures AceRunCards(a, suit) in RunsContaining(rank, suit, P)
  {
    AceLowEndReaches(13, avail, a);
    AceHighRunsContains(AceLowEnd(13, avail), rank, suit, a);
  }

  /** When every card of the ace-high run a..K, A holding the rank is held, so are the ranks a..13, 1 and the rank itself. */
  lemma AceRunRanksHeld(rank: Rank, suit: Suit, avail: set<int>, h: seq<Card>, a: int)
    requires 2 <= a <= 12 && h == AceRunCards(a, suit) && Card(rank, suit) in h
    requires forall i :: 0 <= i < |h| ==> h[i].rank in avail
    ensures forall k :: a <= k <= 13 ==> k in avail
    ensures 1 in avail && rank in avail && (a <= rank || rank == 1)
  {
    forall k | a <= k <= 13 ensures k in avail {
      assert h[k - a].rank == k;
    }
    assert h[|h| - 1].rank == 1;
    var i :| 0 <= i < |h| && h[i] == Card(rank, suit);
    assert h[i].rank == rank;
  }

  /** An ace-high-shaped group of one suit holds exactly the cards a..K and the ace. */
  lemma AceRunSameCards(g: seq<Card>, a: int, suit: Suit)
    requires NoDup(g) && AceHighRunShape(g, a)
    requires forall x :: x in g ==> x.suit == suit
    ensures multiset(AceRunCards(a, suit)) == multiset(g)
  {
    var h := AceRunCards(a, suit);
    forall x | x in g ensures x in h {
      if x.rank == 1 {
        assert h[|h| - 1] == x;
      } else {
        assert h[x.rank - a] == x;
      }
    }
    forall i, j | 0 <= i < j < |h| ensures h[i] != h[j] {
      assert h[i].rank != h[j].rank;
    }
    SameCardsAs(g, h);
  }

  /** Every valid run holding the card and made of cards of P is a candidate, up to order. */
  lemma RunsContainingComplete(rank: Rank, suit: Suit, P: multiset<Card>, g: seq<Card>) returns (h: seq<Card>)
    requires IsValidRun(g) && Card(rank, suit) in g && multiset(g) <= P
    ensures h in RunsContaining(rank, suit, P) && multiset(h) == multiset(g)
  {
    var a, b, aceHigh := RunShape(g);
    RunCardsOfSuit(rank, suit, P, g);
    if !aceHigh {
      h := NormalRunComplete(rank, suit, P, g, a, b);
    } else {
      h := AceHighRunComplete(rank, suit, P, g, a);
    }
  }

  // ----- _groups_for -----

  function GroupsFor(c: Card, P: multiset<Card>): seq<seq<Card>>
  {
    SetsContaining(c.rank, c.suit, P) + RunsContaining(c.rank, c.suit, P)
  }

  /** Every candidate group is valid, holds the card and is made of cards of P. */
  lemma GroupsForSound(c: Card, P: multiset<Card>, g: seq<Card>)
    requires c in P && g in GroupsFor(c, P)
    ensures IsValidGroup(g) && c in g && multiset(g) <= P
  {
    if g in SetsContaining(c.rank, c.suit, P) {
      SetsContainingSound(c.rank, c.suit, P, g);
    } else {
      RunsContainingSound(c.rank, c.suit, P, g);
    }
  }

  /** Every valid group holding the card and made of cards of P is a candidate, up to order. */
  lemma GroupsForComplete(c: Card, P: multiset<Card>, g: seq<Card>) returns (h: seq<Card>)
    requires IsValidGroup(g) && c in g && multiset(g) <= P
    ensures h in GroupsFor(c, P) && multiset(h) == multiset(g)
  {
    if IsValidSet(g) {
      h := SetsContainingComplete(c.rank, c.suit, P, g);
    } else {
      h := RunsContainingComplete(c.rank, c.suit, P, g);
    }
  }

  // ----- the same enumeration read from the pool's count matrix -----

  function OtherSuitsIn(rank: Rank, suit: Suit, pool: CardPool): (r: seq<Suit>)
    reads pool, pool.counts
    requires pool.Valid()
    ensures r == OtherSuits(rank, suit, pool.Contents)
  {
    var keep := set s | s in SUITS && s != suit && pool.Count(Card(rank, s)) > 0;
    assert keep == set s | s in SUITS && s != suit && pool.Contents[Card(rank, s)] > 0;
    Filter(SUITS, keep)
  }

  function AvailRanksIn(suit: Suit, pool: CardPool): (r: set<int>)
    reads pool, pool.counts
    requires pool.Valid()
    ensures r == AvailRanks(suit, pool.Contents)
  {
    set k | 1 <= k <= 13 && pool.Count(Card(k, suit)) > 0
  }

  /** _groups_for evaluated on the pool: the candidate groups of its current contents. */
  function GroupsForIn(c: Card, pool: CardPool): (r: seq<seq<Card>>)
    reads pool, pool.counts
    requires pool.Valid()
    ensures r == GroupsFor(c, pool.Contents)
  {
    SetsFromSize(c.rank, c.suit, OtherSuitsIn(c.rank, c.suit, pool), 2) +
    RunsFromAvail(c.rank, c.suit, AvailRanksIn(c.suit, pool))
  }
}
