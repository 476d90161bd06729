// The bot's candidate lists: the groups it can lay straight from the hand,
// the groups it can build around one cross card, and the single-card
// extensions of floor groups.  Two groups count as the same candidate when
// they hold the same cards (the sorted tuple of (rank, suit) pairs the bot
// keys them by), which is equality of their multisets.
module BotGroups {
  import opened Util
  import opened Sorting
  import opened Cards
  import opened Groups
  import opened BotFinders
  import opened BotRuns

  // ----- dedup by cards, then largest first -----

  /** The card multisets of the listed groups. */
  function KeysOf(gs: seq<seq<Card>>): set<multiset<Card>>
  {
    set g | g in gs :: multiset(g)
  }

  /** No group is listed twice and no two listed groups hold the same cards. */
  ghost predicate KeysDistinct(gs: seq<seq<Card>>)
  {
    NoDup(gs) && forall g, h :: g in gs && h in gs && multiset(g) == multiset(h) ==> g == h
  }

  /** The dedup loop as a value: the first group of each card multiset, in order. */
  function Dedup(gs: seq<seq<Card>>): (d: seq<seq<Card>>)
    ensures forall g {:trigger g in d} :: g in d ==> g in gs
    ensures KeysOf(d) == KeysOf(gs)
    ensures KeysDistinct(d)
  {
    if gs == [] then []
    else
      var d, g := Dedup(gs[..|gs| - 1]), gs[|gs| - 1];
      assert gs == gs[..|gs| - 1] + [g];
      KeysOfSnoc(gs[..|gs| - 1], g);
      if multiset(g) in KeysOf(d) then d
      else
        DedupAppend(d, g);
        KeysOfSnoc(d, g);
        d + [g]
  }

  lemma KeysOfSnoc(gs: seq<seq<Card>>, g: seq<Card>)
    ensures KeysOf(gs + [g]) == KeysOf(gs) + {multiset(g)}
  {
    forall k ensures k in KeysOf(gs + [g]) <==> k in KeysOf(gs) + {multiset(g)} {
      if k in KeysOf(gs + [g]) {
        var h :| h in gs + [g] && multiset(h) == k;
      }
      if k in KeysOf(gs) {
        var h :| h in gs && multiset(h) == k;
        assert h in gs + [g];
      }
      if k == multiset(g) {
        assert g in gs + [g];
      }
    }
  }

  lemma DedupAppend(d: seq<seq<Card>>, g: seq<Card>)
    requires KeysDistinct(d) && multiset(g) !in KeysOf(d)
    ensures KeysDistinct(d + [g])
  {
    assert g !in d;
    NoDupSnoc(d, g);
    forall x, y | x in d + [g] && y in d + [g] && multiset(x) == multiset(y) ensures x == y {
      assert x in d || x == g;
      assert y in d || y == g;
    }
  }

  /** seen = set(); keep a group when its cards are new. */
  method DedupGroups(groups: seq<seq<Card>>) returns (unique: seq<seq<Card>>)
    ensures unique == Dedup(groups)
  {
    var seen: set<multiset<Card>> := {};
    unique := [];
    for i := 0 to |groups|
      invariant unique == Dedup(groups[..i]) && seen == KeysOf(unique)
    {
      var g := groups[i];
      assert groups[..i + 1][..i] == groups[..i];
      if multiset(g) !in seen {
        KeysOfSnoc(unique, g);
        seen := seen + {multiset(g)};
        unique := unique + [g];
      }
    }
    assert groups[..|groups|] == groups;
  }

  /** The sort key -len(g). */
  function NegLen(g: seq<Card>): int
  {
    -|g|
  }

  /** Dedup, then the stable sort largest first. */
  function Ordered(gs: seq<seq<Card>>): seq<seq<Card>>
  {
    SortBy(Dedup(gs), NegLen)
  }

  /**
   * The deduplicated, sorted list holds only listed groups, one for each
   * multiset of cards listed and no two with the same cards, longest first.
   */
  lemma OrderedFacts(gs: seq<seq<Card>>)
    ensures forall g :: g in Ordered(gs) ==> g in gs
    ensures KeysOf(Ordered(gs)) == KeysOf(gs)
    ensures KeysDistinct(Ordered(gs))
    ensures forall p, q :: 0 <= p < q < |Ordered(gs)| ==> |Ordered(gs)[p]| >= |Ordered(gs)[q]|
  {
    var d, o := Dedup(gs), Ordered(gs);
    SortByFacts(d, NegLen);
    PermutationMembers(d, o);
    NoDupPermutation(d, o);
    assert KeysOf(o) == KeysOf(d);
    forall p, q | 0 <= p < q < |o| ensures |o[p]| >= |o[q]| {
      assert NegLen(o[p]) <= NegLen(o[q]);
    }
  }

  // ----- _find_hand_groups -----

  /** _find_hand_groups as a value. */
  function HandGroups(hand: seq<Card>): seq<seq<Card>>
  {
    Ordered(Sets(hand) + Runs(hand))
  }

  method FindHandGroups(hand: seq<Card>) returns (unique: seq<seq<Card>>)
    ensures unique == HandGroups(hand)
  {
    var sets := FindSets(hand);
    var runs := FindRuns(hand);
    unique := DedupGroups(sets + runs);
    unique := SortBy(unique, NegLen);
  }

  /** Every group laid from the hand is valid, repeats no card and takes only cards the hand holds. */
  lemma HandGroupsSound(hand: seq<Card>, g: seq<Card>)
    requires g in HandGroups(hand)
    ensures IsValidGroup(g) && NoDup(g) && multiset(g) <= multiset(hand)
  {
    OrderedFacts(Sets(hand) + Runs(hand));
    if g in Sets(hand) {
      SetsSound(hand);
    } else {
      RunsValid(hand, g);
    }
  }

  /**
   * The hand groups are the sets and runs found, one per multiset of cards,
   * no two alike, largest first.
   */
  lemma HandGroupsShape(hand: seq<Card>)
    ensures KeysOf(HandGroups(hand)) == KeysOf(Sets(hand) + Runs(hand))
    ensures KeysDistinct(HandGroups(hand))
    ensures forall p, q :: 0 <= p < q < |HandGroups(hand)| ==> |HandGroups(hand)[p]| >= |HandGroups(hand)[q]|
  {
    OrderedFacts(Sets(hand) + Runs(hand));
  }

  // ----- _find_floor_extensions -----

  /** (fi, card, extended): floor group fi with one hand card added. */
  datatype Extension = Extension(index: int, card: Card, group: seq<Card>)

  /** for card in hand: the valid one-card extensions of floor group fi, cards first m. */
  function ExtendOne(group: seq<Card>, fi: int, hand: seq<Card>, m: int): seq<Extension>
    requires 0 <= m <= |hand|
  {
    if m == 0 then []
    else
      ExtendOne(group, fi, hand, m - 1) +
      (if IsValidGroup(group + [hand[m - 1]]) then [Extension(fi, hand[m - 1], group + [hand[m - 1]])] else [])
  }

  /** for fi, group in enumerate(floor) over the first n floor groups. */
  function ExtendFirst(floor: seq<seq<Card>>, hand: seq<Card>, n: int): seq<Extension>
    requires 0 <= n <= |floor|
  {
    if n == 0 then [] else ExtendFirst(floor, hand, n - 1) + ExtendOne(floor[n - 1], n - 1, hand, |hand|)
  }

  /** _find_floor_extensions as a value. */
  function Extensions(hand: seq<Card>, floor: seq<seq<Card>>): seq<Extension>
  {
    ExtendFirst(floor, hand, |floor|)
  }

  method FindFloorExtensions(hand: seq<Card>, floor: seq<seq<Card>>) returns (extensions: seq<Extension>)
    ensures extensions == Extensions(hand, floor)
  {
    extensions := [];
    for fi := 0 to |floor|
      invariant extensions == ExtendFirst(floor, hand, fi)
    {
      var group := floor[fi];
      ghost var before := extensions;
      for m := 0 to |hand|
        invariant extensions == before + ExtendOne(group, fi, hand, m)
      {
        var extended := group + [hand[m]];
        if IsValidGroup(extended) {
          extensions := extensions + [Extension(fi, hand[m], extended)];
        }
      }
    }
  }

  /** A valid extension is what the inner loop offers. */
  ghost predicate Extends(e: Extension, group: seq<Card>, fi: int, hand: seq<Card>)
  {
    e.index == fi && e.card in hand && e.group == group + [e.card] && IsValidGroup(e.group)
  }

  lemma {:induction false} ExtendOneExact(group: seq<Card>, fi: int, hand: seq<Card>, m: int, e: Extension)
    requires 0 <= m <= |hand|
    ensures e in ExtendOne(group, fi, hand, m) <==> Extends(e, group, fi, hand[..m])
  {
    if m > 0 {
      ExtendOneExact(group, fi, hand, m - 1, e);
      assert hand[..m] == hand[..m - 1] + [hand[m - 1]];
    }
  }

  lemma {:induction false} ExtendFirstExact(floor: seq<seq<Card>>, hand: seq<Card>, n: int, e: Extension)
    requires 0 <= n <= |floor|
    ensures e in ExtendFirst(floor, hand, n) <==> 0 <= e.index < n && Extends(e, floor[e.index], e.index, hand)
  {
    if n > 0 {
      ExtendFirstExact(floor, hand, n - 1, e);
      ExtendOneExact(floor[n - 1], n - 1, hand, |hand|, e);
      assert hand[..|hand|] == hand;
    }
  }

  /** An extension is offered exactly when it adds a hand card to a floor group and the result is valid. */
  lemma ExtensionsExact(hand: seq<Card>, floor: seq<seq<Card>>, e: Extension)
    ensures e in Extensions(hand, floor) <==>
      0 <= e.index < |floor| && e.card in hand && e.group == floor[e.index] + [e.card] && IsValidGroup(e.group)
  {
    ExtendFirstExact(floor, hand, |floor|, e);
  }

  // ----- _find_cross_groups -----

  /** [c for c in hand if c.rank == cross_card.rank and c.suit != cross_card.suit] */
  function SameRankOthers(hand: seq<Card>, cr: Card): (r: seq<Card>)
    ensures forall c {:trigger c in r} :: c in r <==> c in hand && c.rank == cr.rank && c.suit != cr.suit
  {
    if hand == [] then []
    else
      var c := hand[|hand| - 1];
      assert hand == hand[..|hand| - 1] + [c];
      SameRankOthers(hand[..|hand| - 1], cr) + (if c.rank == cr.rank && c.suit != cr.suit then [c] else [])
  }

  /** The listed groups is_valid_group accepts, in order. */
  function KeepValid(gs: seq<seq<Card>>): (r: seq<seq<Card>>)
    ensures forall g {:trigger g in r} :: g in r <==> g in gs && IsValidGroup(g)
  {
    if gs == [] then []
    else
      var g := gs[|gs| - 1];
      assert gs == gs[..|gs| - 1] + [g];
      KeepValid(gs[..|gs| - 1]) + (if IsValidGroup(g) then [g] else [])
  }

  /** The sets around cross card cr: it with one hand card per other suit, then with each pair of them. */
  function CrossSets(hand: seq<Card>, cr: Card): seq<seq<Card>>
  {
    var u := FirstPerSuit(SameRankOthers(hand, cr));
    if |u| >= 2 then KeepValid([[cr] + u] + Prepend(cr, Combinations(u, 2))) else []
  }

  /** sorted(same_suit.keys()): the hand's ranks in the cross card's suit, and the cross card's own. */
  function CrossRanks(hand: seq<Card>, cr: Card): seq<Rank>
  {
    SuitRanks(OfKey(hand, CardSuit, cr.suit) + [cr])
  }

  /** all(seq[k] + 1 == seq[k + 1] for k in range(len(seq) - 1)) */
  predicate Rising(t: seq<Rank>)
  {
    forall k :: 0 <= k < |t| - 1 ==> Rises(t, k)
  }

  /** The cards of the listed ranks in one suit. */
  function CardsOf(t: seq<Rank>, s: Suit): (g: seq<Card>)
    ensures |g| == |t| && forall k :: 0 <= k < |t| ==> g[k] == Card(t[k], s)
  {
    seq(|t|, k requires 0 <= k < |t| => Card(t[k], s))
  }

  /** The run of ranks[i..j], kept as CrossRunOf says. */
  function CrossRunAt(ranks: seq<Rank>, cr: Card, i: int, j: int): seq<seq<Card>>
    requires 0 <= i <= j < |ranks|
  {
    CrossRunOf(ranks[i..j + 1], cr)
  }

  /** The run of ranks t in cr's suit, kept when its ranks rise by one, include cr's and form a valid group. */
  function CrossRunOf(t: seq<Rank>, cr: Card): seq<seq<Card>>
  {
    if Rising(t) && cr.rank in t && IsValidGroup(CardsOf(t, cr.suit)) then [CardsOf(t, cr.suit)] else []
  }

  /** for j in range(i + 2, e) */
  function CrossRunsFrom(ranks: seq<Rank>, cr: Card, i: int, e: int): seq<seq<Card>>
    requires 0 <= i && e <= |ranks|
    decreases e
  {
    if e <= i + 2 then [] else CrossRunsFrom(ranks, cr, i, e - 1) + CrossRunAt(ranks, cr, i, e - 1)
  }

  /** for i in range(n) */
  function CrossRunsUpTo(ranks: seq<Rank>, cr: Card, n: int): seq<seq<Card>>
    requires 0 <= n <= |ranks|
  {
    if n == 0 then [] else CrossRunsUpTo(ranks, cr, n - 1) + CrossRunsFrom(ranks, cr, n - 1, |ranks|)
  }

  /** The runs around cross card cr. */
  function CrossRuns(hand: seq<Card>, cr: Card): seq<seq<Card>>
  {
    var ranks := CrossRanks(hand, cr);
    CrossRunsUpTo(ranks, cr, |ranks|)
  }

  /** The sets, then the runs, of each cross card in turn. */
  function CrossBlocks(hand: seq<Card>, cross: seq<Card>): (r: seq<seq<seq<Card>>>)
    ensures |r| == |cross| && forall k :: 0 <= k < |cross| ==> r[k] == CrossAround(hand, cross[k])
  {
    seq(|cross|, k requires 0 <= k < |cross| => CrossAround(hand, cross[k]))
  }

  /** The sets, then the runs, around one cross card. */
  function CrossAround(hand: seq<Card>, cr: Card): seq<seq<Card>>
  {
    CrossSets(hand, cr) + CrossRuns(hand, cr)
  }

  /** _find_cross_groups as a value. */
  function CrossGroups(hand: seq<Card>, cross: seq<Card>): seq<seq<Card>>
  {
    Ordered(Concat(CrossBlocks(hand, cross)))
  }

  method FindCrossGroups(hand: seq<Card>, cross: seq<Card>) returns (unique: seq<seq<Card>>)
    ensures unique == CrossGroups(hand, cross)
  {
    ghost var blocks := CrossBlocks(hand, cross);
    var groups := [];
    for n := 0 to |cross|
      invariant groups == Concat(blocks[..n])
    {
      var sets := CrossSetsOf(hand, cross[n]);
      var runs := CrossRunsOf(hand, cross[n]);
      CrossBlocksStep(hand, cross, n);
      groups := groups + (sets + runs);
    }
    assert blocks[..|cross|] == blocks;
    unique := DedupGroups(groups);
    unique := SortBy(unique, NegLen);
  }

  /** One more cross card appends its sets and runs. */
  lemma CrossBlocksStep(hand: seq<Card>, cross: seq<Card>, n: int)
    requires 0 <= n < |cross|
    ensures Concat(CrossBlocks(hand, cross)[..n + 1]) ==
      Concat(CrossBlocks(hand, cross)[..n]) + (CrossSets(hand, cross[n]) + CrossRuns(hand, cross[n]))
  {
    var blocks := CrossBlocks(hand, cross);
    assert blocks[..n + 1][..n] == blocks[..n];
  }

  /** The set part of the loop body for one cross card. */
  method CrossSetsOf(hand: seq<Card>, cr: Card) returns (groups: seq<seq<Card>>)
    ensures groups == CrossSets(hand, cr)
  {
    var sameRank := SameRankOthers(hand, cr);
    var uniqueSuits := UniqueBySuit(sameRank);
    groups := [];
    if |uniqueSuits| >= 2 {
      var group := [cr] + uniqueSuits;
      if IsValidGroup(group) {
        groups := groups + [group];
      }
      var combos := Combinations(uniqueSuits, 2);
      for k := 0 to |combos|
        invariant groups == KeepValid([[cr] + uniqueSuits] + Prepend(cr, combos[..k]))
      {
        ghost var listed := [[cr] + uniqueSuits] + Prepend(cr, combos[..k]);
        assert [[cr] + uniqueSuits] + Prepend(cr, combos[..k + 1]) == listed + [[cr] + combos[k]];
        group := [cr] + combos[k];
        if IsValidGroup(group) {
          groups := groups + [group];
        }
      }
      assert combos[..|combos|] == combos;
    }
  }

  /** The run part of the loop body for one cross card. */
  method CrossRunsOf(hand: seq<Card>, cr: Card) returns (groups: seq<seq<Card>>)
    ensures groups == CrossRuns(hand, cr)
  {
    var keys, sameSuit := ByRank(OfKey(hand, CardSuit, cr.suit) + [cr], cr.suit);
    var ranks := SortBy(keys, RankKey);
    SortedKeyed(keys, sameSuit, cr.suit);
    groups := [];
    for i := 0 to |ranks|
      invariant groups == CrossRunsUpTo(ranks, cr, i)
    {
      var found := CrossRunsStarting(ranks, sameSuit, cr, i);
      groups := groups + found;
    }
  }

  /** Sorting the keys of by_rank keeps them the keys. */
  lemma SortedKeyed(keys: seq<Rank>, byRank: map<Rank, Card>, s: Suit)
    requires (forall r :: r in byRank <==> r in keys) && forall r :: r in byRank ==> byRank[r] == Card(r, s)
    ensures Keyed(byRank, SortBy(keys, RankKey), s)
  {
    SortByFacts(keys, RankKey);
    PermutationMembers(keys, SortBy(keys, RankKey));
  }

  /** for j in range(i + 2, len(ranks)): the runs of ranks[i..j] around the cross card. */
  method CrossRunsStarting(ranks: seq<Rank>, sameSuit: map<Rank, Card>, cr: Card, i: int) returns (found: seq<seq<Card>>)
    requires Keyed(sameSuit, ranks, cr.suit) && 0 <= i < |ranks|
    ensures found == CrossRunsFrom(ranks, cr, i, |ranks|)
  {
    found := [];
    if i + 2 < |ranks| {
      for j := i + 2 to |ranks|
        invariant found == CrossRunsFrom(ranks, cr, i, j)
      {
        var piece := CrossRunCheck(ranks, sameSuit, cr, i, j);
        found := found + piece;
      }
    }
  }

  /** The body of the inner loop: ranks[i..j] kept as a run around cr, or nothing. */
  method CrossRunCheck(ranks: seq<Rank>, sameSuit: map<Rank, Card>, cr: Card, i: int, j: int) returns (piece: seq<seq<Card>>)
    requires Keyed(sameSuit, ranks, cr.suit) && 0 <= i <= j < |ranks|
    ensures piece == CrossRunAt(ranks, cr, i, j)
  {
    piece := [];
    var t := ranks[i..j + 1];
    if Rising(t) && cr.rank in t {
      var run := seq(|t|, k requires 0 <= k < |t| => sameSuit[t[k]]);
      assert run == CardsOf(t, cr.suit);
      if IsValidGroup(run) {
        piece := [run];
      }
    }
  }

  // ----- what the cross groups are -----

  /** g is a valid group holding cross card cr, repeating no card, its other cards from the hand. */
  ghost predicate AroundCross(g: seq<Card>, cr: Card, hand: seq<Card>)
  {
    IsValidGroup(g) && NoDup(g) && cr in g && forall c :: c in g && c != cr ==> c in hand
  }

  /** Such a group takes from the hand and the cross card no more copies than they hold. */
  lemma AroundCrossCards(g: seq<Card>, cr: Card, hand: seq<Card>)
    requires AroundCross(g, cr, hand)
    ensures multiset(g) <= multiset(hand) + multiset{cr}
  {
    NoDupSubMultiset(g, multiset(hand) + multiset{cr});
  }

  /** A valid group repeats no card. */
  lemma ValidGroupNoDup(g: seq<Card>)
    requires IsValidGroup(g)
    ensures NoDup(g)
  {
    if IsValidSet(g) {
      ValidSetIff(g);
      DistinctSuitsDistinctCards(g);
    } else {
      RunDistinct(g);
    }
  }

  lemma CrossSetsSound(hand: seq<Card>, cr: Card, g: seq<Card>)
    requires g in CrossSets(hand, cr)
    ensures AroundCross(g, cr, hand)
  {
    var u := FirstPerSuit(SameRankOthers(hand, cr));
    ValidGroupNoDup(g);
    if g != [cr] + u {
      var combos := Prepend(cr, Combinations(u, 2));
      assert g in combos;
      var k :| 0 <= k < |combos| && combos[k] == g;
      var combo := Combinations(u, 2)[k];
      CombinationMembers(u, 2, combo);
      assert g == [cr] + combo;
    }
  }

  lemma {:induction false} CrossRunsFromMember(ranks: seq<Rank>, cr: Card, i: int, e: int, g: seq<Card>) returns (j: int)
    requires 0 <= i && e <= |ranks| && g in CrossRunsFrom(ranks, cr, i, e)
    ensures i + 2 <= j < e
    ensures g in CrossRunAt(ranks, cr, i, j)
    decreases e
  {
    if g in CrossRunsFrom(ranks, cr, i, e - 1) {
      j := CrossRunsFromMember(ranks, cr, i, e - 1, g);
    } else {
      j := e - 1;
    }
  }

  lemma {:induction false} CrossRunsUpToMember(ranks: seq<Rank>, cr: Card, n: int, g: seq<Card>) returns (i: int, j: int)
    requires 0 <= n <= |ranks| && g in CrossRunsUpTo(ranks, cr, n)
    ensures 0 <= i < n && i + 2 <= j < |ranks| && g in CrossRunAt(ranks, cr, i, j)
  {
    if g in CrossRunsUpTo(ranks, cr, n - 1) {
      i, j := CrossRunsUpToMember(ranks, cr, n - 1, g);
    } else {
      i := n - 1;
      j := CrossRunsFromMember(ranks, cr, n - 1, |ranks|, g);
    }
  }

  lemma CrossRunsSound(hand: seq<Card>, cr: Card, g: seq<Card>)
    requires g in CrossRuns(hand, cr)
    ensures AroundCross(g, cr, hand)
  {
    var ranks := CrossRanks(hand, cr);
    var cards := OfKey(hand, CardSuit, cr.suit) + [cr];
    var i, j := CrossRunsUpToMember(ranks, cr, |ranks|, g);
    var t := ranks[i..j + 1];
    assert g == CardsOf(t, cr.suit) && IsValidGroup(g) && cr.rank in t;
    ValidGroupNoDup(g);
    var k :| 0 <= k < |t| && t[k] == cr.rank;
    assert g[k] == cr;
    forall c | c in g && c != cr ensures c in hand {
      var m :| 0 <= m < |g| && g[m] == c;
      assert t[m] == ranks[i + m];
      RanksOfSuitCards(cards, cr.suit, t[m]);
      assert c in cards;
    }
  }

  /** Every group built around the cross is valid and holds one of the cross cards, the rest from the hand. */
  lemma CrossGroupsSound(hand: seq<Card>, cross: seq<Card>, g: seq<Card>)
    requires g in CrossGroups(hand, cross)
    ensures exists k :: 0 <= k < |cross| && AroundCross(g, cross[k], hand)
  {
    OrderedFacts(Concat(CrossBlocks(hand, cross)));
    var k := ConcatMember(CrossBlocks(hand, cross), g);
    CrossAroundSound(hand, cross[k], g);
  }

  lemma CrossAroundSound(hand: seq<Card>, cr: Card, g: seq<Card>)
    requires g in CrossAround(hand, cr)
    ensures AroundCross(g, cr, hand)
  {
    if g in CrossSets(hand, cr) {
      CrossSetsSound(hand, cr, g);
    } else {
      CrossRunsSound(hand, cr, g);
    }
  }

  /** The cross groups are those found, one per multiset of cards, no two alike, largest first. */
  lemma CrossGroupsShape(hand: seq<Card>, cross: seq<Card>)
    ensures KeysOf(CrossGroups(hand, cross)) == KeysOf(Concat(CrossBlocks(hand, cross)))
    ensures KeysDistinct(CrossGroups(hand, cross))
    ensures forall p, q :: 0 <= p < q < |CrossGroups(hand, cross)| ==> |CrossGroups(hand, cross)[p]| >= |CrossGroups(hand, cross)[q]|
  {
    OrderedFacts(Concat(CrossBlocks(hand, cross)));
  }
}
