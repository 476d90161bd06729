// The bot's direct-play finders: sets and runs straight from the hand,
// groups around one cross card, and single-card extensions of floor groups.
// A dict keyed by rank or suit keeps its keys in order of first insertion;
// since a card is a value, "one card per suit" is "one copy of each card".
module BotFinders {
  import opened Util
  import opened Sorting
  import opened Cards
  import opened Groups

  function CardRank(c: Card): int
  {
    c.rank as int
  }

  function CardSuit(c: Card): Suit
  {
    c.suit
  }

  // ----- grouping: defaultdict(list) filled in hand order -----

  /** The cards with the given key, in their order in the list. */
  function OfKey<K(==)>(cards: seq<Card>, key: Card -> K, k: K): (r: seq<Card>)
    ensures forall c {:trigger c in r} :: c in r <==> c in cards && key(c) == k
    ensures |r| <= |cards|
  {
    if cards == [] then []
    else OfKey(cards[..|cards| - 1], key, k) + (if key(cards[|cards| - 1]) == k then [cards[|cards| - 1]] else [])
  }

  /** The distinct keys of the cards, in order of first appearance. */
  function KeysInOrder<K(==)>(cards: seq<Card>, key: Card -> K): (ks: seq<K>)
    ensures NoDup(ks)
    ensures forall c {:trigger c in cards} :: c in cards ==> key(c) in ks
    ensures forall k {:trigger k in ks} :: k in ks ==> OfKey(cards, key, k) != []
  {
    if cards == [] then []
    else
      var c, ks := cards[|cards| - 1], KeysInOrder(cards[..|cards| - 1], key);
      assert c in OfKey(cards, key, key(c));
      assert cards == cards[..|cards| - 1] + [c];
      if key(c) in ks then ks
      else
        NoDupSnoc(ks, key(c));
        ks + [key(c)]
  }

  lemma NoDupSnoc<T>(s: seq<T>, x: T)
    requires NoDup(s) && x !in s
    ensures NoDup(s + [x])
  {
    NoDupAppend(s, [x]);
  }

  /** A key absent from the list has no cards. */
  lemma OfMissingKey<K>(cards: seq<Card>, key: Card -> K, k: K)
    requires k !in KeysInOrder(cards, key)
    ensures OfKey(cards, key, k) == []
  {
  }

  /** by_key[key(card)].append(card) for each card: the keys and each key's cards. */
  method GroupBy<K(==)>(cards: seq<Card>, key: Card -> K) returns (order: seq<K>, groups: map<K, seq<Card>>)
    ensures order == KeysInOrder(cards, key)
    ensures forall k :: k in groups <==> k in order
    ensures forall k :: k in groups ==> groups[k] == OfKey(cards, key, k)
  {
    order, groups := [], map[];
    for i := 0 to |cards|
      invariant order == KeysInOrder(cards[..i], key)
      invariant forall k :: k in groups <==> k in order
      invariant forall k :: k in groups ==> groups[k] == OfKey(cards[..i], key, k)
    {
      var c := cards[i];
      assert cards[..i + 1][..i] == cards[..i];
      if key(c) !in groups {
        OfMissingKey(cards[..i], key, key(c));
        order := order + [key(c)];
        groups := groups[key(c) := [c]];
      } else {
        groups := groups[key(c) := groups[key(c)] + [c]];
      }
    }
    assert cards[..|cards|] == cards;
  }

  // ----- one card per suit -----

  /** The first card of each suit, in order of first appearance. */
  function FirstPerSuit(cards: seq<Card>): (u: seq<Card>)
    ensures NoDup(SuitsOf(u))
    ensures forall c {:trigger c in u} :: c in u ==> c in cards
    ensures forall c {:trigger c in cards} :: c in cards ==> c.suit in SuitsOf(u)
  {
    if cards == [] then []
    else
      var c, u := cards[|cards| - 1], FirstPerSuit(cards[..|cards| - 1]);
      assert cards == cards[..|cards| - 1] + [c];
      if c.suit in SuitsOf(u) then u
      else
        assert SuitsOf(u + [c]) == SuitsOf(u) + [c.suit];
        NoDupSnoc(SuitsOf(u), c.suit);
        u + [c]
  }

  /** by_suit = {}; keep a card when its suit is new; list(by_suit.values()). */
  method UniqueBySuit(cards: seq<Card>) returns (unique: seq<Card>)
    ensures unique == FirstPerSuit(cards)
  {
    var seen: set<Suit> := {};
    unique := [];
    for i := 0 to |cards|
      invariant unique == FirstPerSuit(cards[..i])
      invariant forall s :: s in seen <==> s in SuitsOf(unique)
    {
      var c := cards[i];
      assert cards[..i + 1][..i] == cards[..i];
      if c.suit !in seen {
        seen := seen + {c.suit};
        assert SuitsOf(unique + [c]) == SuitsOf(unique) + [c.suit];
        unique := unique + [c];
      }
    }
    assert cards[..|cards|] == cards;
  }

  /** Distinct cards of one rank lie in distinct suits. */
  lemma OneRankDistinctSuits(g: seq<Card>, r: int)
    requires NoDup(g) && forall c :: c in g ==> c.rank as int == r
    ensures NoDup(SuitsOf(g))
  {
    forall i, j | 0 <= i < j < |g| ensures SuitsOf(g)[i] != SuitsOf(g)[j] {
      assert g[i] in g && g[j] in g;
    }
  }

  /** Cards in distinct suits are distinct. */
  lemma DistinctSuitsDistinctCards(g: seq<Card>)
    requires NoDup(SuitsOf(g))
    ensures NoDup(g)
  {
    forall i, j | 0 <= i < j < |g| ensures g[i] != g[j] {
      assert SuitsOf(g)[i] != SuitsOf(g)[j];
    }
  }

  /** A duplicate-free group drawn from the hand takes no more copies than the hand holds. */
  lemma FromHand(g: seq<Card>, hand: seq<Card>)
    requires NoDup(g) && forall c :: c in g ==> c in hand
    ensures multiset(g) <= multiset(hand)
  {
    NoDupSubMultiset(g, multiset(hand));
  }

  // ----- _find_sets -----

  /** The sets offered for one rank's cards: all suits held, then each 3-card choice when there are four. */
  function SetsOfRank(cards: seq<Card>): seq<seq<Card>>
  {
    var u := FirstPerSuit(cards);
    if |u| >= 3 then [u] + (if |u| > 3 then Combinations(u, 3) else []) else []
  }

  /** The sets for the listed ranks of the hand, rank after rank. */
  function SetsFor(hand: seq<Card>, ranks: seq<int>): seq<seq<Card>>
  {
    if ranks == [] then []
    else SetsFor(hand, ranks[..|ranks| - 1]) + SetsOfRank(OfKey(hand, CardRank, ranks[|ranks| - 1]))
  }

  /** _find_sets as a value: the ranks in order of first appearance in the hand. */
  function Sets(hand: seq<Card>): seq<seq<Card>>
  {
    SetsFor(hand, KeysInOrder(hand, CardRank))
  }

  method FindSets(hand: seq<Card>) returns (sets: seq<seq<Card>>)
    ensures sets == Sets(hand)
  {
    var order, byRank := GroupBy(hand, CardRank);
    sets := [];
    for i := 0 to |order|
      invariant sets == SetsFor(hand, order[..i])
    {
      SetsForStep(hand, order, i);
      var unique := UniqueBySuit(byRank[order[i]]);
      var found: seq<seq<Card>> := [];
      if |unique| >= 3 {
        found := [unique];
        if |unique| > 3 {
          found := found + Combinations(unique, 3);
        }
      }
      assert found == SetsOfRank(byRank[order[i]]);
      sets := sets + found;
    }
    assert order[..|order|] == order;
  }

  lemma SetsForStep(hand: seq<Card>, ranks: seq<int>, i: int)
    requires 0 <= i < |ranks|
    ensures SetsFor(hand, ranks[..i + 1]) == SetsFor(hand, ranks[..i]) + SetsOfRank(OfKey(hand, CardRank, ranks[i]))
  {
    assert ranks[..i + 1][..i] == ranks[..i];
  }

  /** What every offered set is: a valid set of distinct hand cards. */
  predicate SetFromHand(g: seq<Card>, hand: seq<Card>)
  {
    IsValidSet(g) && NoDup(g) && forall c :: c in g ==> c in hand
  }

  /** Every set of one rank's cards is a valid set of those cards. */
  lemma SetsOfRankSound(hand: seq<Card>, r: int, g: seq<Card>)
    requires g in SetsOfRank(OfKey(hand, CardRank, r))
    ensures SetFromHand(g, hand)
  {
    var u := FirstPerSuit(OfKey(hand, CardRank, r));
    DistinctSuitsDistinctCards(u);
    assert forall c :: c in u ==> c.rank as int == r;
    if g != u {
      CombinationMembers(u, 3, g);
      OneRankDistinctSuits(g, r);
    }
    ValidSetIff(g);
  }

  lemma {:induction false} SetsForSound(hand: seq<Card>, ranks: seq<int>, g: seq<Card>)
    requires g in SetsFor(hand, ranks)
    ensures SetFromHand(g, hand)
  {
    if ranks != [] {
      var last := ranks[|ranks| - 1];
      if g in SetsFor(hand, ranks[..|ranks| - 1]) {
        SetsForSound(hand, ranks[..|ranks| - 1], g);
      } else {
        SetsOfRankSound(hand, last, g);
      }
    }
  }

  /** Every list _find_sets offers is a valid set of cards the hand holds. */
  lemma SetsSound(hand: seq<Card>)
    ensures forall g :: g in Sets(hand) ==> SetFromHand(g, hand) && multiset(g) <= multiset(hand)
  {
    forall g | g in Sets(hand) ensures SetFromHand(g, hand) && multiset(g) <= multiset(hand) {
      SetsForSound(hand, KeysInOrder(hand, CardRank), g);
      FromHand(g, hand);
    }
  }

  lemma {:induction false} SetsForComplete(hand: seq<Card>, ranks: seq<int>, r: int, g: seq<Card>)
    requires r in ranks && g in SetsOfRank(OfKey(hand, CardRank, r))
    ensures g in SetsFor(hand, ranks)
  {
    var last := ranks[|ranks| - 1];
    if last != r {
      assert r in ranks[..|ranks| - 1];
      SetsForComplete(hand, ranks[..|ranks| - 1], r, g);
    }
  }

  /** The suits kept for a rank hold every card of that rank in the hand. */
  lemma UniqueHoldsRank(hand: seq<Card>, r: Rank, s: Suit)
    requires Card(r, s) in hand
    ensures Card(r, s) in FirstPerSuit(OfKey(hand, CardRank, r as int))
  {
    var cards := OfKey(hand, CardRank, r as int);
    var u := FirstPerSuit(cards);
    assert Card(r, s) in cards;
    var i :| 0 <= i < |u| && SuitsOf(u)[i] == s;
    assert u[i] in u;
    assert u[i] in cards;
  }

  /**
   * A rank the hand holds in three or more suits yields the set of all the
   * suits it is held in.
   */
  lemma SetsComplete(hand: seq<Card>, r: Rank, suits: set<Suit>)
    requires |suits| >= 3 && forall s :: s in suits ==> Card(r, s) in hand
    ensures FirstPerSuit(OfKey(hand, CardRank, r as int)) in Sets(hand)
    ensures forall s :: s in suits ==> Card(r, s) in FirstPerSuit(OfKey(hand, CardRank, r as int))
  {
    var u := FirstPerSuit(OfKey(hand, CardRank, r as int));
    forall s | s in suits ensures Card(r, s) in u {
      UniqueHoldsRank(hand, r, s);
    }
    SuitsHeld(u, suits, r);
    var someSuit :| someSuit in suits;
    assert Card(r, someSuit) in hand;
    SetsForComplete(hand, KeysInOrder(hand, CardRank), r as int, u);
  }

  /** A rank the hand holds in all four suits keeps one card of each suit. */
  lemma FourSuitsHeld(hand: seq<Card>, r: Rank)
    requires forall s: Suit :: Card(r, s) in hand
    ensures |FirstPerSuit(OfKey(hand, CardRank, r as int))| == 4
  {
    var u := FirstPerSuit(OfKey(hand, CardRank, r as int));
    var all := {Spades, Hearts, Diamonds, Clubs};
    assert |all| == 4;
    forall s | s in all ensures Card(r, s) in u {
      UniqueHoldsRank(hand, r, s);
    }
    SuitsHeld(u, all, r);
    assert |u| <= 4 by {
      AtMostFourSuits(Elements(SuitsOf(u)));
      ElementsSize(SuitsOf(u));
    }
  }

  /** Four cards have four 3-card choices. */
  lemma FourChooseThree<T>(u: seq<T>)
    requires |u| == 4
    ensures |Combinations(u, 3)| == 4
  {
    CombinationsCount(u, 3);
    assert Binomial(4, 3) == 4;
  }

  /** A rank the hand holds in all four suits also yields its four 3-card sets. */
  lemma FourSuitsSets(hand: seq<Card>, r: Rank)
    requires forall s: Suit :: Card(r, s) in hand
    ensures |Combinations(FirstPerSuit(OfKey(hand, CardRank, r as int)), 3)| == 4
    ensures forall g :: g in Combinations(FirstPerSuit(OfKey(hand, CardRank, r as int)), 3) ==> g in Sets(hand)
  {
    var u := FirstPerSuit(OfKey(hand, CardRank, r as int));
    FourSuitsHeld(hand, r);
    FourChooseThree(u);
    assert Card(r, Spades) in hand;
    forall g | g in Combinations(u, 3) ensures g in Sets(hand) {
      SetsForComplete(hand, KeysInOrder(hand, CardRank), r as int, g);
    }
  }

  /** A list holding a card of each listed suit is at least that long. */
  lemma SuitsHeld(u: seq<Card>, suits: set<Suit>, r: Rank)
    requires forall s :: s in suits ==> Card(r, s) in u
    ensures |u| >= |suits|
  {
    var sus := set s | s in suits :: Card(r, s);
    assert |sus| == |suits| by {
      SuitCardsCount(suits, r);
    }
    assert sus <= Elements(u);
    ElementsSize(u);
    assert |sus| <= |Elements(u)| by {
      SubsetSize(sus, Elements(u));
    }
  }

  lemma SuitCardsCount(suits: set<Suit>, r: Rank)
    ensures |set s | s in suits :: Card(r, s)| == |suits|
  {
    if suits != {} {
      var s :| s in suits;
      SuitCardsCount(suits - {s}, r);
      assert (set x | x in suits :: Card(r, x)) == (set x | x in suits - {s} :: Card(r, x)) + {Card(r, s)};
    }
  }

  lemma SubsetSize<T>(a: set<T>, b: set<T>)
    requires a <= b
    ensures |a| <= |b|
  {
    assert b == a + (b - a);
  }
}
