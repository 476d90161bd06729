// A hand the greedy play mishandles. With the seven of spades in the cross
// and two sevens of hearts and two of diamonds in the hand, the first round
// lays a set of the three sevens around the cross card. As written, the cross
// card stays available, so the second round lays the same set again: the
// floor then holds two sevens of spades where the cross gave one, and
// validate_play rejects the play. With the cross card used up, the second
// round finds nothing and the single set is accepted.
module BotGreedyFinding {
  import opened Util
  import opened Cards
  import opened Groups
  import opened Engine
  import opened BotFinders
  import opened BotGroups
  import opened BotGreedy
  import opened BotGreedyFacts

  const SevenS: Card := Card(7, Spades)
  const SevenH: Card := Card(7, Hearts)
  const SevenD: Card := Card(7, Diamonds)

  /** Two sevens of hearts and two of diamonds. */
  const SevensHand: seq<Card> := [SevenH, SevenD, SevenH, SevenD]

  /** The cross with the seven of spades in its first slot. */
  const SevensCross: seq<Option<Card>> := [Some(SevenS), None, None, None]

  ghost predicate OnlyRedSevens(remaining: seq<Card>)
  {
    forall c :: c in remaining ==> c == SevenH || c == SevenD
  }

  /** A multiset within two cards holds at most two. */
  lemma WithinTwo(m: multiset<Card>, a: Card, b: Card)
    requires m <= multiset{a, b}
    ensures |m| <= 2
  {
    var rest := multiset{a, b} - m;
    assert multiset{a, b} == m + rest;
    assert |m + rest| == |m| + |rest|;
    assert |multiset{a, b}| == 2;
  }

  /** Red sevens make no valid group, which needs three different cards. */
  lemma RedSevensNoGroup(g: seq<Card>)
    requires NoDup(g) && OnlyRedSevens(g)
    ensures !IsValidGroup(g)
  {
    forall c | c in g ensures c in multiset{SevenH, SevenD} {
    }
    NoDupSubMultiset(g, multiset{SevenH, SevenD});
    WithinTwo(multiset(g), SevenH, SevenD);
    if IsValidGroup(g) {
      ValidGroupSize(g);
    }
  }

  /** The hand alone makes no group. */
  lemma NoHandGroup(remaining: seq<Card>)
    requires OnlyRedSevens(remaining)
    ensures HandGroups(remaining) == []
  {
    if HandGroups(remaining) != [] {
      var g := HandGroups(remaining)[0];
      HandGroupsSound(remaining, g);
      RedFromRed(g, remaining);
      RedSevensNoGroup(g);
      assert false;
    }
  }

  lemma RedFromRed(g: seq<Card>, remaining: seq<Card>)
    requires OnlyRedSevens(remaining) && multiset(g) <= multiset(remaining)
    ensures OnlyRedSevens(g)
  {
    forall c | c in g ensures c in remaining {
      assert c in multiset(remaining);
    }
  }

  /** Holding both red sevens, the hand sets the three sevens around the seven of spades. */
  lemma CrossGroupFound(remaining: seq<Card>)
    requires OnlyRedSevens(remaining) && SevenH in remaining && SevenD in remaining
    ensures CrossGroups(remaining, [SevenS]) != []
  {
    var u := FirstPerSuit(SameRankOthers(remaining, SevenS));
    var g := [SevenS] + u;
    SpadesSet(remaining, u);
    assert g in CrossSets(remaining, SevenS);
    var blocks := CrossBlocks(remaining, [SevenS]);
    assert blocks[..0] == [];
    assert Concat(blocks) == CrossAround(remaining, SevenS);
    KeyOfMember(Concat(blocks), g);
    CrossGroupsShape(remaining, [SevenS]);
  }

  /** One red seven of each suit the hand holds, with the seven of spades, is a valid set. */
  lemma SpadesSet(remaining: seq<Card>, u: seq<Card>)
    requires OnlyRedSevens(remaining) && SevenH in remaining && SevenD in remaining
    requires u == FirstPerSuit(SameRankOthers(remaining, SevenS))
    ensures |u| >= 2 && IsValidGroup([SevenS] + u)
  {
    var others := SameRankOthers(remaining, SevenS);
    assert SevenH in others && SevenD in others;
    var su := SuitsOf(u);
    assert Hearts in su && Diamonds in su;
    var i :| 0 <= i < |su| && su[i] == Hearts;
    var j :| 0 <= j < |su| && su[j] == Diamonds;
    assert i != j;
    forall c | c in u ensures c.rank == 7 && c.suit != Spades {
      assert c in others;
    }
    SevensSet(u);
  }

  /** The seven of spades and sevens of other suits, no suit twice, make a valid set. */
  lemma SevensSet(u: seq<Card>)
    requires |u| >= 2 && NoDup(SuitsOf(u))
    requires forall c :: c in u ==> c.rank == 7 && c.suit != Spades
    ensures IsValidSet([SevenS] + u) && IsValidGroup([SevenS] + u)
  {
    var g := [SevenS] + u;
    var su := SuitsOf(u);
    assert SuitsOf(g) == [Spades] + su;
    assert Spades !in su;
    NoDupCons(Spades, su);
    assert SameRank(g) by {
      forall k | 0 <= k < |g| ensures g[k].rank == 7 {
        if k > 0 { assert g[k] in u; }
      }
    }
    ValidSetIff(g);
  }

  lemma KeyOfMember(gs: seq<seq<Card>>, g: seq<Card>)
    requires g in gs
    ensures multiset(g) in KeysOf(gs)
  {
  }

  /** A group around the seven of spades with red sevens besides is the three sevens. */
  lemma ThreeSevens(g: seq<Card>, remaining: seq<Card>)
    requires AroundCross(g, SevenS, remaining) && OnlyRedSevens(remaining)
    ensures multiset(g) == multiset{SevenS, SevenH, SevenD}
  {
    var m := multiset{SevenS, SevenH, SevenD};
    forall c | c in g ensures c in m {
      if c != SevenS {
        assert c in remaining;
      }
    }
    NoDupSubMultiset(g, m);
    ValidGroupSize(g);
    var d := m - multiset(g);
    assert m == multiset(g) + d;
    assert |m| == 3 && |multiset(g) + d| == |multiset(g)| + |d|;
    SubMultisetSameSize(multiset(g), m);
  }

  /** The three sevens split into the red sevens, taken from the hand, and the seven of spades, skipped. */
  lemma SevensSplit(T: multiset<Card>, K: multiset<Card>, R: multiset<Card>)
    requires T + K == multiset{SevenS, SevenH, SevenD} && T <= R
    requires R[SevenS] == 0 && K[SevenH] == 0 && K[SevenD] == 0
    ensures T == multiset{SevenH, SevenD} && K == multiset{SevenS}
  {
    assert (T + K)[SevenS] == 1 && (T + K)[SevenH] == 1 && (T + K)[SevenD] == 1;
    forall c ensures T[c] == multiset{SevenH, SevenD}[c] && K[c] == multiset{SevenS}[c] {
      assert (T + K)[c] == multiset{SevenS, SevenH, SevenD}[c];
    }
  }

  /** Laying the three sevens from a hand of red sevens holding both plays the two red sevens. */
  lemma TakeSevens(g: seq<Card>, remaining: seq<Card>)
    requires AroundCross(g, SevenS, remaining) && OnlyRedSevens(remaining)
    requires SevenH in remaining && SevenD in remaining
    ensures multiset(g) == multiset{SevenS, SevenH, SevenD}
    ensures multiset(Take(g, remaining).1) == multiset{SevenH, SevenD}
    ensures multiset(Take(g, remaining).2) == multiset{SevenS}
    ensures multiset(Take(g, remaining).0) == multiset(remaining) - multiset{SevenH, SevenD}
  {
    ThreeSevens(g, remaining);
    var r := Take(g, remaining);
    TakeSplits(g, remaining);
    TakeSkips(g, remaining);
    assert SevenS !in remaining;
    assert SevenH !in r.2 && SevenD !in r.2;
    SevensSplit(multiset(r.1), multiset(r.2), multiset(remaining));
  }

  /** The candidates of a round on red sevens with the seven of spades in the cross: groups around it, and some. */
  lemma SevensCandidates(remaining: seq<Card>)
    requires OnlyRedSevens(remaining) && SevenH in remaining && SevenD in remaining
    ensures Candidates(remaining, [SevenS]) != []
    ensures forall g :: g in Candidates(remaining, [SevenS]) ==> AroundCross(g, SevenS, remaining)
  {
    NoHandGroup(remaining);
    CrossGroupFound(remaining);
    assert Candidates(remaining, [SevenS]) == CrossGroups(remaining, [SevenS]);
    forall g | g in CrossGroups(remaining, [SevenS]) ensures AroundCross(g, SevenS, remaining) {
      CrossGroupsSound(remaining, [SevenS], g);
    }
  }

  /** The new group of such a round: around the seven of spades. */
  lemma PickSevens(t: Table)
    requires t.crossLeft == [SevenS] && OnlyRedSevens(t.remaining)
    requires SevenH in t.remaining && SevenD in t.remaining
    ensures Pick(t.remaining, t.floor, t.crossLeft).Some? && Pick(t.remaining, t.floor, t.crossLeft).value.NewGroup?
    ensures AroundCross(Pick(t.remaining, t.floor, t.crossLeft).value.group, SevenS, t.remaining)
  {
    SevensCandidates(t.remaining);
    PickNew(t.remaining, t.floor, t.crossLeft);
  }

  /**
   * The table n after such a round: the three sevens laid, the two red sevens
   * played; as written the seven of spades stays in the cross, used up it
   * leaves it.
   */
  ghost predicate SevensLaid(t: Table, n: Table, consume: bool)
  {
    |n.floor| == |t.floor| + 1 && n.floor[..|t.floor|] == t.floor &&
    multiset(n.floor[|t.floor|]) == multiset{SevenS, SevenH, SevenD} &&
    multiset(n.remaining) == multiset(t.remaining) - multiset{SevenH, SevenD} &&
    multiset(n.played) == multiset(t.played) + multiset{SevenH, SevenD} &&
    n.crossLeft == if consume then [] else [SevenS]
  }

  lemma LaySevens(t: Table, g: seq<Card>, consume: bool)
    requires t.crossLeft == [SevenS] && OnlyRedSevens(t.remaining)
    requires SevenH in t.remaining && SevenD in t.remaining
    requires AroundCross(g, SevenS, t.remaining)
    ensures SevensLaid(t, Apply(t, NewGroup(g), consume), consume)
  {
    TakeSevens(g, t.remaining);
    var r := Take(g, t.remaining);
    var n := Apply(t, NewGroup(g), consume);
    assert n == Table(r.0, t.floor + [g], t.played + r.1, if consume then Without(t.crossLeft, multiset(r.2)) else t.crossLeft);
    assert (t.floor + [g])[..|t.floor|] == t.floor;
    if consume {
      assert Without([SevenS], multiset{SevenS}) == [];
    }
  }

  /** Such a round plays, and lays the three sevens. */
  lemma RoundOfSevens(t: Table, consume: bool)
    requires t.crossLeft == [SevenS] && OnlyRedSevens(t.remaining)
    requires SevenH in t.remaining && SevenD in t.remaining
    ensures Step(t, consume).Some? && SevensLaid(t, Step(t, consume).value, consume)
  {
    PickSevens(t);
    var p := Pick(t.remaining, t.floor, t.crossLeft).value;
    LaySevens(t, p.group, consume);
    assert Step(t, consume) == Some(Apply(t, p, consume));
  }

  // ----- the two plays -----

  lemma RedPair(remaining: seq<Card>)
    requires multiset(remaining) == multiset{SevenH, SevenD}
    ensures OnlyRedSevens(remaining) && SevenH in remaining && SevenD in remaining
  {
    assert SevenH in multiset(remaining) && SevenD in multiset(remaining);
    forall c | c in remaining ensures c == SevenH || c == SevenD {
      assert c in multiset(remaining);
    }
  }

  /** The start of the play: the hand, the empty floor, and the seven of spades in the cross. */
  function Start(): Table
  {
    Table(SevensHand, [], [], [SevenS])
  }

  lemma StartFacts()
    ensures OnlyRedSevens(Start().remaining) && SevenH in Start().remaining && SevenD in Start().remaining
    ensures multiset(Start().remaining) == multiset{SevenH, SevenD} + multiset{SevenH, SevenD}
    ensures ActiveCross(SevensCross) == [SevenS]
  {
    var s3: seq<Option<Card>> := [None];
    assert s3[1..] == [];
    assert ActiveCross(s3) == [];
    var s2 := [None] + s3;
    assert s2[1..] == s3;
    assert ActiveCross(s2) == [];
    var s1 := [None] + s2;
    assert s1[1..] == s2;
    assert SevensCross == [Some(SevenS)] + s1 && SevensCross[1..] == s1;
    assert ActiveCross(s1) == [];
  }

  lemma SecondRound(t1: Table)
    requires SevensLaid(Start(), t1, false)
    ensures t1.crossLeft == [SevenS] && OnlyRedSevens(t1.remaining) && SevenH in t1.remaining && SevenD in t1.remaining
  {
    StartFacts();
    assert multiset(t1.remaining) == multiset{SevenH, SevenD};
    RedPair(t1.remaining);
  }

  /**
   * As written, the first two rounds each lay the three sevens: two sevens of
   * spades on the floor, the four red sevens played.
   */
  lemma TwoRounds() returns (t2: Table)
    ensures Step(Start(), false).Some?
    ensures Rounds(Start(), MaxRounds, false) == Rounds(t2, MaxRounds - 2, false)
    ensures Bag(t2.floor)[SevenS] == 2 && multiset(t2.played)[SevenS] == 0 && multiset(t2.remaining)[SevenS] == 0
  {
    var t0 := Start();
    StartFacts();
    RoundOfSevens(t0, false);
    var t1 := Step(t0, false).value;
    SecondRound(t1);
    RoundOfSevens(t1, false);
    t2 := Step(t1, false).value;
    RoundsNext(t0, MaxRounds, false);
    RoundsNext(t1, MaxRounds - 1, false);
    TwoSevensOfSpades(t0, t1, t2);
  }

  lemma TwoSevensOfSpades(t0: Table, t1: Table, t2: Table)
    requires t0 == Start() && SevensLaid(t0, t1, false) && SevensLaid(t1, t2, false)
    ensures Bag(t2.floor)[SevenS] == 2 && multiset(t2.played)[SevenS] == 0 && multiset(t2.remaining)[SevenS] == 0
  {
    StartFacts();
    assert multiset(t0.remaining)[SevenS] == 0;
    SpadesAfterLay(t0, t1);
    SpadesAfterLay(t1, t2);
  }

  /** Laying the sevens adds one seven of spades to the floor and none to the hand or the plays. */
  lemma SpadesAfterLay(t: Table, n: Table)
    requires SevensLaid(t, n, false)
    ensures Bag(n.floor)[SevenS] == Bag(t.floor)[SevenS] + 1
    ensures multiset(n.played)[SevenS] == multiset(t.played)[SevenS]
    ensures multiset(n.remaining)[SevenS] == multiset(t.remaining)[SevenS]
  {
    assert n.floor == t.floor + [n.floor[|t.floor|]];
    BagSnoc(t.floor, n.floor[|t.floor|]);
  }

  /** Progress from a table with no seven of spades in hand or play. */
  lemma SpadesStay(t: Table, o: Table, n: nat)
    requires Progress(t, o, false, n)
    requires Bag(t.floor)[SevenS] == 2 && multiset(t.played)[SevenS] == 0 && multiset(t.remaining)[SevenS] == 0
    ensures Bag(o.floor)[SevenS] >= 2 && multiset(o.played)[SevenS] == 0
  {
    assert (multiset(o.remaining) + multiset(o.played))[SevenS] == (multiset(t.remaining) + multiset(t.played))[SevenS];
    assert (Bag(t.floor) + multiset(o.played))[SevenS] <= (Bag(o.floor) + multiset(t.played))[SevenS];
  }

  /** A play of hand cards keeping the floor's cards is rejected with NotFromCross when the floor gains more than the cross gives. */
  lemma RejectedNotFromCross(hand: seq<Card>, floor: seq<seq<Card>>, slots: seq<Option<Card>>,
                             newFloor: seq<seq<Card>>, played: seq<Card>)
    requires played != [] && multiset(played) <= multiset(hand)
    requires Bag(floor) + multiset(played) <= Bag(newFloor)
    requires !(Bag(newFloor) <= Bag(floor) + multiset(played) + multiset(ActiveCross(slots)))
    ensures ValidatePlay(hand, floor, slots, newFloor, played).Reject?
    ensures ValidatePlay(hand, floor, slots, newFloor, played).reason.NotFromCross?
  {
    ValidatePlayAccepts(hand, floor, slots, newFloor, played);
  }

  /**
   * As written, _greedy_play on the two pairs of red sevens with the seven of
   * spades in the cross lays the seven of spades twice, and validate_play
   * rejects its play as holding a card the cross does not give.
   */
  lemma GreedyPlayReusesCross()
    ensures GreedyPlay(SevensHand, [], ActiveCross(SevensCross)).Some?
    ensures var o := GreedyPlay(SevensHand, [], ActiveCross(SevensCross)).value;
      Bag(o.floor)[SevenS] >= 2 && multiset(o.played)[SevenS] == 0 &&
      multiset(ActiveCross(SevensCross))[SevenS] == 1 &&
      ValidatePlay(SevensHand, [], SevensCross, o.floor, o.played).Reject? &&
      ValidatePlay(SevensHand, [], SevensCross, o.floor, o.played).reason.NotFromCross?
  {
    StartFacts();
    var t2 := TwoRounds();
    var o := Rounds(t2, MaxRounds - 2, false);
    RoundsProgress(t2, MaxRounds - 2, false);
    SpadesStay(t2, o, MaxRounds - 2);
    assert GreedyPlay(SevensHand, [], [SevenS]) == Some(Outcome(o.floor, o.played));
    GreedyPlayFacts(SevensHand, [], [SevenS]);
    assert Bag<Card>([]) == multiset{};
    assert Bag(o.floor)[SevenS] > (Bag<Card>([]) + multiset(o.played) + multiset(ActiveCross(SevensCross)))[SevenS];
    RejectedNotFromCross(SevensHand, [], SevensCross, o.floor, o.played);
  }

  // ----- the corrected play -----

  /** No cross card left, no group around one. */
  lemma NoCrossGroup(remaining: seq<Card>)
    ensures CrossGroups(remaining, []) == []
  {
    var blocks := CrossBlocks(remaining, []);
    assert blocks == [];
    CrossGroupsShape(remaining, []);
  }

  /** A card already in a group cannot extend it into a group repeating no card. */
  lemma SnocRepeats(g: seq<Card>, c: Card)
    requires c in g
    ensures !NoDup(g + [c])
  {
    var i :| 0 <= i < |g| && g[i] == c;
    assert (g + [c])[i] == (g + [c])[|g|];
  }

  /** The red sevens extend no floor of the three sevens: each is in it already. */
  lemma NoExtension(remaining: seq<Card>, floor: seq<seq<Card>>)
    requires OnlyRedSevens(remaining) && |floor| == 1 && multiset(floor[0]) == multiset{SevenS, SevenH, SevenD}
    ensures Extensions(remaining, floor) == []
  {
    if Extensions(remaining, floor) != [] {
      var e := Extensions(remaining, floor)[0];
      ExtensionsExact(remaining, floor, e);
      assert e.card in multiset(floor[0]);
      SnocRepeats(floor[0], e.card);
      ValidGroupNoDup(e.group);
      assert false;
    }
  }

  /** A round that finds nothing ends the rounds. */
  lemma RoundsIdle(t: Table, n: nat, consume: bool)
    requires Step(t, consume).None?
    ensures Rounds(t, n, consume) == t
  {
    assert RoundOf(consume)(t) == Step(t, consume);
  }

  /** The three sevens claim the one seven of spades of the cross. */
  lemma SevensAnchored(g: seq<Card>)
    requires multiset(g) == multiset{SevenS, SevenH, SevenD}
    ensures CrossAnchored([g], multiset{SevenS})
  {
    var gs := [g];
    assert gs[..0] == [];
    assert multiset(g) * (multiset{SevenS} - Bag(gs[..0])) == multiset{SevenS};
  }

  /**
   * With the seven of spades used up once laid, the second round finds
   * nothing: the play is the one set of the three sevens and the two red
   * sevens, and validate_play accepts it.
   */
  lemma GreedyPlayFixedSevens()
    ensures GreedyPlayFixed(SevensHand, [], ActiveCross(SevensCross)).Some?
    ensures var o := GreedyPlayFixed(SevensHand, [], ActiveCross(SevensCross)).value;
      |o.floor| == 1 && multiset(o.floor[0]) == multiset{SevenS, SevenH, SevenD} &&
      multiset(o.played) == multiset{SevenH, SevenD} &&
      ValidatePlay(SevensHand, [], SevensCross, o.floor, o.played) == Accept
  {
    var t0 := Start();
    StartFacts();
    RoundOfSevens(t0, true);
    var t1 := Step(t0, true).value;
    FixedSecondRound(t1);
    RoundsNext(t0, MaxRounds, true);
    RoundsIdle(t1, MaxRounds - 1, true);
    assert GreedyPlayFixed(SevensHand, [], [SevenS]) == Some(Outcome(t1.floor, t1.played));
    GreedyPlayFixedValidates(SevensHand, [], SevensCross);
    assert t1.floor == [t1.floor[0]];
    SevensAnchored(t1.floor[0]);
  }

  lemma FixedSecondRound(t1: Table)
    requires SevensLaid(Start(), t1, true)
    ensures Step(t1, true).None?
    ensures |t1.floor| == 1 && multiset(t1.floor[0]) == multiset{SevenS, SevenH, SevenD}
    ensures multiset(t1.played) == multiset{SevenH, SevenD}
  {
    StartFacts();
    assert multiset(t1.remaining) == multiset{SevenH, SevenD};
    RedPair(t1.remaining);
    NoHandGroup(t1.remaining);
    NoCrossGroup(t1.remaining);
    NoExtension(t1.remaining, t1.floor);
    PickNone(t1.remaining, t1.floor, t1.crossLeft);
  }
}
