// What the bot's greedy play promises. Every round plays at least one card of
// the hand and leaves only valid groups where it changed the floor. The floor
// gains at least the played cards. Once each incorporated cross card is used up
// (the corrected play), the floor gains nothing but the played cards and the
// cross cards. As written, a cross card stays available to later rounds, so two
// new groups can both hold it.
module BotGreedyFacts {
  import opened Util
  import opened Cards
  import opened Groups
  import opened Engine
  import opened BotGroups
  import opened BotGreedy

  // ----- the card loop of a new group -----

  /** The cards of the group in the remaining hand move to the played list, the rest are skipped. */
  lemma {:induction false} TakeSplits(group: seq<Card>, remaining: seq<Card>)
    ensures multiset(Take(group, remaining).0) + multiset(Take(group, remaining).1) == multiset(remaining)
    ensures multiset(Take(group, remaining).1) + multiset(Take(group, remaining).2) == multiset(group)
  {
    if group != [] {
      var x := group[0];
      var all := Take(group, remaining);
      assert multiset(group) == multiset{x} + multiset(group[1..]) by {
        assert group == [x] + group[1..];
      }
      if x in remaining {
        var rest := RemoveFirst(remaining, x);
        TakeSplits(group[1..], rest);
        var r := Take(group[1..], rest);
        assert all == (r.0, [x] + r.1, r.2);
        assert multiset([x] + r.1) == multiset{x} + multiset(r.1);
        assert x in multiset(remaining);
        assert multiset(rest) + multiset{x} == multiset(remaining);
      } else {
        TakeSplits(group[1..], remaining);
        var r := Take(group[1..], remaining);
        assert all == (r.0, r.1, [x] + r.2);
        assert multiset([x] + r.2) == multiset{x} + multiset(r.2);
      }
    }
  }

  /** With no repeated card in the group, a skipped card was never in the hand. */
  lemma {:induction false} TakeSkips(group: seq<Card>, remaining: seq<Card>)
    requires NoDup(group)
    ensures forall c :: c in Take(group, remaining).2 ==> c !in remaining
  {
    if group != [] {
      var x := group[0];
      NoDupTail(group);
      if x in remaining {
        var rest := RemoveFirst(remaining, x);
        TakeSkips(group[1..], rest);
        var r := Take(group[1..], rest);
        assert Take(group, remaining).2 == r.2;
        TakeSplits(group[1..], rest);
        forall c | c in r.2 ensures c !in remaining {
          SkippedFrom(r.1, r.2, group[1..], c);
          assert c != x;
          assert multiset(rest)[c] == multiset(remaining)[c];
        }
      } else {
        TakeSkips(group[1..], remaining);
        var r := Take(group[1..], remaining);
        assert Take(group, remaining).2 == [x] + r.2;
      }
    }
  }

  lemma SkippedFrom(taken: seq<Card>, skipped: seq<Card>, group: seq<Card>, c: Card)
    requires multiset(taken) + multiset(skipped) == multiset(group) && c in skipped
    ensures c in group
  {
    assert c in multiset(skipped);
    assert c in multiset(group);
  }

  /** A group holding a card of the hand plays at least one card. */
  lemma {:induction false} TakeSome(group: seq<Card>, remaining: seq<Card>, c: Card)
    requires c in group && c in remaining
    ensures Take(group, remaining).1 != []
  {
    if group[0] !in remaining {
      assert c in group[1..];
      TakeSome(group[1..], remaining, c);
    }
  }

  // ----- one round -----

  /** Replacing one group changes the bag by the cards of the two groups. */
  lemma BagUpdate(gs: seq<seq<Card>>, k: int, g: seq<Card>)
    requires 0 <= k < |gs|
    ensures Bag(gs[k := g]) + multiset(gs[k]) == Bag(gs) + multiset(g)
  {
    var hs := gs[k := g];
    BagRemoveAt(gs, k);
    BagRemoveAt(hs, k);
    assert hs[..k] + hs[k + 1..] == gs[..k] + gs[k + 1..];
  }

  lemma BagSnoc(gs: seq<seq<Card>>, g: seq<Card>)
    ensures Bag(gs + [g]) == Bag(gs) + multiset(g)
  {
    assert (gs + [g])[..|gs|] == gs;
  }

  /**
   * What a round's play promises: a new group is valid, repeats no card, is
   * playable and scores; an extension is one of those offered.
   */
  ghost predicate PlayOk(t: Table, p: Play)
  {
    match p
    case NewGroup(g) => IsValidGroup(g) && NoDup(g) && Playable(g, t.remaining, t.crossLeft) && Score(g, t.remaining) > 0
    case Extend(e) => e in Extensions(t.remaining, t.floor)
  }

  /**
   * A round moves cards from the hand to the played list, and at least one. The
   * floor gains at least the cards played. With cross cards used up, it gains
   * exactly the played cards and the cross cards used. The floor grows by at most
   * one group, and every group the round changed is valid.
   */
  lemma ApplyFacts(t: Table, p: Play, consume: bool)
    requires p.Extend? ==> 0 <= p.ext.index < |t.floor| && p.ext.card in t.remaining
    requires PlayOk(t, p)
    ensures multiset(Apply(t, p, consume).remaining) + multiset(Apply(t, p, consume).played) ==
      multiset(t.remaining) + multiset(t.played)
    ensures |Apply(t, p, consume).played| > |t.played| && Apply(t, p, consume).played[..|t.played|] == t.played
    ensures Bag(t.floor) + multiset(Apply(t, p, consume).played) <= Bag(Apply(t, p, consume).floor) + multiset(t.played)
    ensures consume ==>
      Bag(Apply(t, p, consume).floor) + multiset(Apply(t, p, consume).crossLeft) + multiset(t.played) ==
      Bag(t.floor) + multiset(t.crossLeft) + multiset(Apply(t, p, consume).played)
    ensures !consume ==> Apply(t, p, consume).crossLeft == t.crossLeft
    ensures |t.floor| <= |Apply(t, p, consume).floor| <= |t.floor| + 1
    ensures forall i :: 0 <= i < |Apply(t, p, consume).floor| ==>
      (i < |t.floor| && Apply(t, p, consume).floor[i] == t.floor[i]) || IsValidGroup(Apply(t, p, consume).floor[i])
  {
    match p {
      case NewGroup(g) =>
        NewGroupFacts(t, g, consume);
      case Extend(e) =>
        ExtendFacts(t, e, consume);
    }
  }

  lemma NewGroupFacts(t: Table, g: seq<Card>, consume: bool)
    requires PlayOk(t, NewGroup(g))
    ensures var a := Apply(t, NewGroup(g), consume);
      multiset(a.remaining) + multiset(a.played) == multiset(t.remaining) + multiset(t.played) &&
      |a.played| > |t.played| && a.played[..|t.played|] == t.played &&
      Bag(t.floor) + multiset(a.played) <= Bag(a.floor) + multiset(t.played) &&
      (consume ==> Bag(a.floor) + multiset(a.crossLeft) + multiset(t.played) == Bag(t.floor) + multiset(t.crossLeft) + multiset(a.played)) &&
      (!consume ==> a.crossLeft == t.crossLeft) &&
      a.floor == t.floor + [g]
  {
    var r := Take(g, t.remaining);
    var a := Apply(t, NewGroup(g), consume);
    assert a.remaining == r.0 && a.played == t.played + r.1 && a.floor == t.floor + [g];
    TakeSplits(g, t.remaining);
    BagSnoc(t.floor, g);
    var c := HandPart(g, t.remaining)[0];
    assert c in HandPart(g, t.remaining);
    TakeSome(g, t.remaining, c);
    assert a.played[..|t.played|] == t.played;
    if consume {
      assert a.crossLeft == Without(t.crossLeft, multiset(r.2));
      TakeSkips(g, t.remaining);
      PlayableIff(g, t.remaining, t.crossLeft);
      CrossUsedUp(g, r.1, r.2, t.remaining, t.crossLeft);
      WithoutCards(t.crossLeft, multiset(r.2));
      Rebalance(Bag(t.floor), multiset(g), multiset(t.crossLeft), multiset(t.played), multiset(r.1), multiset(r.2));
    }
  }

  /** The skipped cards of a playable group, none in the hand, are cross cards, one copy each. */
  lemma CrossUsedUp(g: seq<Card>, taken: seq<Card>, skipped: seq<Card>, remaining: seq<Card>, cross: seq<Card>)
    requires NoDup(g) && multiset(taken) + multiset(skipped) == multiset(g)
    requires forall c :: c in skipped ==> c !in remaining
    requires forall c :: c in g ==> c in remaining || c in cross
    ensures multiset(skipped) <= multiset(cross)
  {
    NoDupByMultiset(g);
    forall c ensures multiset(skipped)[c] <= 1 {
      assert multiset(skipped)[c] <= multiset(g)[c];
    }
    NoDupByMultiset(skipped);
    forall c | c in skipped ensures c in multiset(cross) {
      SkippedFrom(taken, skipped, g, c);
    }
    NoDupSubMultiset(skipped, multiset(cross));
  }

  /** Placing group G = T + S, with S drawn from C, moves S from C to the floor and T to the played cards. */
  lemma Rebalance(B: multiset<Card>, G: multiset<Card>, C: multiset<Card>, P: multiset<Card>, T: multiset<Card>, S: multiset<Card>)
    requires G == T + S && S <= C
    ensures (B + G) + (C - S) + P == B + C + (P + T)
  {
  }

  lemma ExtendFacts(t: Table, e: Extension, consume: bool)
    requires 0 <= e.index < |t.floor| && e.card in t.remaining
    requires PlayOk(t, Extend(e))
    ensures var a := Apply(t, Extend(e), consume);
      multiset(a.remaining) + multiset(a.played) == multiset(t.remaining) + multiset(t.played) &&
      |a.played| > |t.played| && a.played[..|t.played|] == t.played &&
      Bag(t.floor) + multiset(a.played) == Bag(a.floor) + multiset(t.played) &&
      Bag(a.floor) + multiset(a.crossLeft) + multiset(t.played) == Bag(t.floor) + multiset(t.crossLeft) + multiset(a.played) &&
      a.crossLeft == t.crossLeft &&
      a.floor == t.floor[e.index := e.group] && IsValidGroup(e.group)
  {
    var a := Apply(t, Extend(e), consume);
    ExtensionsExact(t.remaining, t.floor, e);
    assert a == Table(RemoveFirst(t.remaining, e.card), t.floor[e.index := e.group], t.played + [e.card], t.crossLeft);
    var old_ := t.floor[e.index];
    BagUpdate(t.floor, e.index, e.group);
    assert multiset(e.group) == multiset(old_) + multiset{e.card};
    assert multiset(a.played) == multiset(t.played) + multiset{e.card};
    AddOne(Bag(a.floor), Bag(t.floor), multiset(old_), e.card);
    assert a.played[..|t.played|] == t.played;
  }

  /** Cancelling the old group from both sides leaves the one added card. */
  lemma AddOne(X: multiset<Card>, Y: multiset<Card>, A: multiset<Card>, c: Card)
    requires X + A == Y + (A + multiset{c})
    ensures X == Y + multiset{c}
  {
    forall x ensures X[x] == (Y + multiset{c})[x] {
      assert (X + A)[x] == (Y + (A + multiset{c}))[x];
    }
  }

  // ----- the round's choice -----

  /** Every candidate new group is valid and repeats no card. */
  lemma CandidateValid(remaining: seq<Card>, cross: seq<Card>, g: seq<Card>)
    requires g in Candidates(remaining, cross)
    ensures IsValidGroup(g) && NoDup(g)
  {
    if g in HandGroups(remaining) {
      HandGroupsSound(remaining, g);
    } else {
      CrossGroupsSound(remaining, cross, g);
    }
  }

  /** The play a round picks is one PlayOk admits, and an extension names a floor group and a held card. */
  lemma PickOk(t: Table)
    requires Pick(t.remaining, t.floor, t.crossLeft).Some?
    ensures PlayOk(t, Pick(t.remaining, t.floor, t.crossLeft).value)
    ensures Pick(t.remaining, t.floor, t.crossLeft).value.Extend? ==>
      0 <= Pick(t.remaining, t.floor, t.crossLeft).value.ext.index < |t.floor| &&
      Pick(t.remaining, t.floor, t.crossLeft).value.ext.card in t.remaining
  {
    var p := Pick(t.remaining, t.floor, t.crossLeft);
    var cands := Candidates(t.remaining, t.crossLeft);
    var best := BestNew(cands, t.remaining, t.crossLeft, |cands|);
    assert p == Choose(cands, Extensions(t.remaining, t.floor), t.remaining, t.crossLeft);
    match p.value {
      case NewGroup(g) =>
        assert best.Some? && g == best.value;
        CandidateValid(t.remaining, t.crossLeft, g);
      case Extend(e) =>
        ExtensionsExact(t.remaining, t.floor, e);
    }
  }

  // ----- rounds -----

  /**
   * What n rounds from t to o keep: the hand and the played cards together are
   * the same cards, the earlier plays stay a prefix, the floor gains at least
   * the cards played (exactly those and the cross cards used, when they are used
   * up), the floor grows by at most n groups, and every changed group is valid.
   */
  ghost predicate Progress(t: Table, o: Table, consume: bool, n: nat)
  {
    multiset(o.remaining) + multiset(o.played) == multiset(t.remaining) + multiset(t.played) &&
    |o.played| >= |t.played| && o.played[..|t.played|] == t.played &&
    Bag(t.floor) + multiset(o.played) <= Bag(o.floor) + multiset(t.played) &&
    (consume ==> Bag(o.floor) + multiset(o.crossLeft) + multiset(t.played) == Bag(t.floor) + multiset(t.crossLeft) + multiset(o.played)) &&
    (!consume ==> o.crossLeft == t.crossLeft) &&
    |t.floor| <= |o.floor| <= |t.floor| + n &&
    forall i :: 0 <= i < |o.floor| ==> (i < |t.floor| && o.floor[i] == t.floor[i]) || IsValidGroup(o.floor[i])
  }

  /** A round that plays keeps Progress and plays at least one card. */
  lemma StepProgress(t: Table, consume: bool)
    requires Step(t, consume).Some?
    ensures Progress(t, Step(t, consume).value, consume, 1)
    ensures |Step(t, consume).value.played| > |t.played|
  {
    var p := Pick(t.remaining, t.floor, t.crossLeft);
    PickOk(t);
    ApplyFacts(t, p.value, consume);
    assert Step(t, consume).value == Apply(t, p.value, consume);
  }

  lemma ProgressNone(t: Table, consume: bool, n: nat)
    ensures Progress(t, t, consume, n)
  {
    assert t.played[..|t.played|] == t.played;
  }

  /** Progress over two stretches of rounds adds up. */
  lemma ProgressChain(t: Table, m: Table, o: Table, consume: bool, n1: nat, n2: nat)
    requires Progress(t, m, consume, n1) && Progress(m, o, consume, n2)
    ensures Progress(t, o, consume, n1 + n2)
  {
    assert o.played[..|t.played|] == o.played[..|m.played|][..|t.played|];
    ChainAtLeast(Bag(t.floor), Bag(m.floor), Bag(o.floor), multiset(t.played), multiset(m.played), multiset(o.played));
    if consume {
      ChainExact(Bag(t.floor), Bag(m.floor), Bag(o.floor), multiset(t.crossLeft), multiset(m.crossLeft), multiset(o.crossLeft),
        multiset(t.played), multiset(m.played), multiset(o.played));
    }
  }

  /** Up to n rounds keep Progress. */
  lemma RoundsProgress(t: Table, n: nat, consume: bool)
    ensures Progress(t, Rounds(t, n, consume), consume, n)
  {
    var step := RoundOf(consume);
    forall s | step(s).Some? ensures Progress(s, step(s).value, consume, 1) {
      assert step(s) == Step(s, consume);
      StepProgress(s, consume);
    }
    IterateProgress(step, t, n, consume);
  }

  /** Whatever keeps Progress for one round keeps it for n. */
  lemma {:induction false} IterateProgress(step: Table -> Option<Table>, t: Table, n: nat, consume: bool)
    requires forall s :: step(s).Some? ==> Progress(s, step(s).value, consume, 1)
    ensures Progress(t, Iterate(step, t, n), consume, n)
    decreases n
  {
    if n == 0 || step(t).None? {
      ProgressNone(t, consume, n);
    } else {
      var next := step(t).value;
      IterateProgress(step, next, n - 1, consume);
      ProgressChain(t, next, Iterate(step, next, n - 1), consume, 1, n - 1);
    }
  }

  /** When the first round plays, all rounds from the start have progressed from the first round's table. */
  lemma FirstRound(t: Table, consume: bool)
    requires Step(t, consume).Some?
    ensures Progress(t, Rounds(t, MaxRounds, consume), consume, MaxRounds)
    ensures |Rounds(t, MaxRounds, consume).played| > |t.played|
  {
    var next := Step(t, consume).value;
    StepProgress(t, consume);
    RoundsProgress(next, MaxRounds - 1, consume);
    assert Rounds(t, MaxRounds, consume) == Rounds(next, MaxRounds - 1, consume);
    ProgressChain(t, next, Rounds(next, MaxRounds - 1, consume), consume, 1, MaxRounds - 1);
  }

  // ----- the whole greedy play -----

  /** From an empty played list, Progress bounds the play by the hand and the floor by the cards added. */
  lemma NoPlayed(t: Table, o: Table, consume: bool, n: nat)
    requires t.played == [] && Progress(t, o, consume, n)
    ensures multiset(o.played) <= multiset(t.remaining)
    ensures Bag(t.floor) + multiset(o.played) <= Bag(o.floor)
    ensures consume ==> Bag(o.floor) <= Bag(t.floor) + multiset(o.played) + multiset(t.crossLeft)
    ensures (forall g :: g in t.floor ==> IsValidGroup(g)) ==> forall g :: g in o.floor ==> IsValidGroup(g)
  {
    assert multiset(t.played) == multiset{};
    forall x ensures multiset(o.played)[x] <= multiset(t.remaining)[x] {
      assert (multiset(o.remaining) + multiset(o.played))[x] == multiset(t.remaining)[x];
    }
    if consume {
      forall x ensures Bag(o.floor)[x] <= (Bag(t.floor) + multiset(o.played) + multiset(t.crossLeft))[x] {
        assert (Bag(o.floor) + multiset(o.crossLeft))[x] == (Bag(t.floor) + multiset(t.crossLeft) + multiset(o.played))[x];
      }
    }
    if forall g :: g in t.floor ==> IsValidGroup(g) {
      forall g | g in o.floor ensures IsValidGroup(g) {
        var i :| 0 <= i < |o.floor| && o.floor[i] == g;
        if i < |t.floor| && o.floor[i] == t.floor[i] {
          assert t.floor[i] in t.floor;
        }
      }
    }
  }

  /** A play meeting every check but the anchoring is accepted exactly when anchored. */
  lemma AcceptedWhenAnchored(hand: seq<Card>, floor: seq<seq<Card>>, slots: seq<Option<Card>>,
                             newFloor: seq<seq<Card>>, played: seq<Card>)
    requires played != [] && multiset(played) <= multiset(hand)
    requires Bag(floor) + multiset(played) <= Bag(newFloor)
    requires Bag(newFloor) <= Bag(floor) + multiset(played) + multiset(ActiveCross(slots))
    requires forall g :: g in newFloor ==> IsValidGroup(g)
    ensures ValidatePlay(hand, floor, slots, newFloor, played) == Accept <==>
      CrossAnchored(newFloor, multiset(ActiveCross(slots)))
  {
    ValidatePlayAccepts(hand, floor, slots, newFloor, played);
    forall g | g in newFloor ensures |g| >= 3 {
      ValidGroupSize(g);
    }
  }

  lemma ValidGroupSize(g: seq<Card>)
    requires IsValidGroup(g)
    ensures |g| >= 3
  {
    if !IsValidSet(g) {
      assert IsValidRun(g);
    }
  }

  /**
   * _greedy_play as written, when it plays: at least one card, all from the
   * hand; the floor keeps every card it had and gains the played ones; it grows
   * by at most one group a round; every group it changed or added is valid, so a
   * floor of valid groups stays valid.
   */
  lemma GreedyPlayFacts(hand: seq<Card>, floor: seq<seq<Card>>, cross: seq<Card>)
    requires GreedyPlay(hand, floor, cross).Some?
    ensures var o := GreedyPlay(hand, floor, cross).value;
      o.played != [] && multiset(o.played) <= multiset(hand) &&
      Bag(floor) + multiset(o.played) <= Bag(o.floor) &&
      |floor| <= |o.floor| <= |floor| + MaxRounds &&
      (forall i :: 0 <= i < |o.floor| ==> (i < |floor| && o.floor[i] == floor[i]) || IsValidGroup(o.floor[i])) &&
      ((forall g :: g in floor ==> IsValidGroup(g)) ==> forall g :: g in o.floor ==> IsValidGroup(g))
  {
    var start := Table(hand, floor, [], cross);
    FirstRound(start, false);
    var t := Rounds(start, MaxRounds, false);
    assert GreedyPlay(hand, floor, cross).value == Outcome(t.floor, t.played);
    NoPlayed(start, t, false, MaxRounds);
  }

  /**
   * _greedy_play with each incorporated cross card used up: besides the above,
   * the floor gains nothing but the played cards and cross cards, each cross
   * card at most once.
   */
  lemma GreedyPlayFixedFacts(hand: seq<Card>, floor: seq<seq<Card>>, cross: seq<Card>)
    requires GreedyPlayFixed(hand, floor, cross).Some?
    ensures var o := GreedyPlayFixed(hand, floor, cross).value;
      o.played != [] && multiset(o.played) <= multiset(hand) &&
      Bag(floor) + multiset(o.played) <= Bag(o.floor) &&
      Bag(o.floor) <= Bag(floor) + multiset(o.played) + multiset(cross) &&
      |floor| <= |o.floor| <= |floor| + MaxRounds &&
      (forall i :: 0 <= i < |o.floor| ==> (i < |floor| && o.floor[i] == floor[i]) || IsValidGroup(o.floor[i])) &&
      ((forall g :: g in floor ==> IsValidGroup(g)) ==> forall g :: g in o.floor ==> IsValidGroup(g))
  {
    var start := Table(hand, floor, [], cross);
    FirstRound(start, true);
    var t := Rounds(start, MaxRounds, true);
    assert GreedyPlayFixed(hand, floor, cross).value == Outcome(t.floor, t.played);
    NoPlayed(start, t, true, MaxRounds);
  }

  /**
   * On a floor of valid groups, validate_play accepts the corrected greedy
   * play exactly when its groups keep the cross cards apart: every other check
   * passes.
   */
  lemma GreedyPlayFixedValidates(hand: seq<Card>, floor: seq<seq<Card>>, slots: seq<Option<Card>>)
    requires GreedyPlayFixed(hand, floor, ActiveCross(slots)).Some?
    requires forall g :: g in floor ==> IsValidGroup(g)
    ensures var o := GreedyPlayFixed(hand, floor, ActiveCross(slots)).value;
      ValidatePlay(hand, floor, slots, o.floor, o.played) == Accept <==> CrossAnchored(o.floor, multiset(ActiveCross(slots)))
  {
    var o := GreedyPlayFixed(hand, floor, ActiveCross(slots)).value;
    GreedyPlayFixedFacts(hand, floor, ActiveCross(slots));
    AcceptedWhenAnchored(hand, floor, slots, o.floor, o.played);
  }

  // ----- when the bot plays nothing -----

  /** A group the scoring loop may keep: playable, and scoring above 0. */
  ghost predicate Scores(g: seq<Card>, remaining: seq<Card>, cross: seq<Card>)
  {
    Playable(g, remaining, cross) && Score(g, remaining) > 0
  }

  /** The scoring loop keeps a group once the last group it looks at scores. */
  lemma BestNewLast(groups: seq<seq<Card>>, remaining: seq<Card>, cross: seq<Card>, n: int)
    requires 0 < n <= |groups| && Scores(groups[n - 1], remaining, cross)
    ensures BestNew(groups, remaining, cross, n).Some?
  {
    BetterNone(BestNew(groups, remaining, cross, n - 1), groups[n - 1], remaining, cross);
  }

  lemma BetterNone(best: Option<seq<Card>>, g: seq<Card>, remaining: seq<Card>, cross: seq<Card>)
    ensures Better(best, g, remaining, cross).None? <==> best.None? && !Scores(g, remaining, cross)
  {
  }

  /** Every candidate scores. */
  lemma CandidateScores(remaining: seq<Card>, cross: seq<Card>, g: seq<Card>)
    requires g in Candidates(remaining, cross)
    ensures Scores(g, remaining, cross)
  {
    if g in HandGroups(remaining) {
      HandGroupsSound(remaining, g);
      forall c | c in g ensures c in remaining {
        assert c in multiset(g);
      }
      HandGroupScores(g, remaining, cross);
    } else {
      CrossGroupsSound(remaining, cross, g);
      var k :| 0 <= k < |cross| && AroundCross(g, cross[k], remaining);
      CrossGroupScores(g, cross[k], remaining, cross);
    }
  }

  /** A valid group of hand cards scores. */
  lemma HandGroupScores(g: seq<Card>, remaining: seq<Card>, cross: seq<Card>)
    requires IsValidGroup(g) && forall c :: c in g ==> c in remaining
    ensures Scores(g, remaining, cross)
  {
    PlayableIff(g, remaining, cross);
    ValidGroupSize(g);
    assert g[0] in HandPart(g, remaining);
  }

  /** A group around a cross card scores: its other cards come from the hand, and there are some. */
  lemma CrossGroupScores(g: seq<Card>, cr: Card, remaining: seq<Card>, cross: seq<Card>)
    requires AroundCross(g, cr, remaining) && cr in cross
    ensures Scores(g, remaining, cross)
  {
    PlayableIff(g, remaining, cross);
    ValidGroupSize(g);
    var c := if g[0] != cr then g[0] else g[1];
    assert c in g;
    assert c in HandPart(g, remaining);
  }

  /** With every group scoring and every extension's card held, the choice is None exactly when both lists are empty. */
  lemma ChooseNone(groups: seq<seq<Card>>, exts: seq<Extension>, remaining: seq<Card>, cross: seq<Card>)
    requires forall g :: g in groups ==> Scores(g, remaining, cross)
    requires forall e :: e in exts ==> e.card in remaining
    ensures Choose(groups, exts, remaining, cross).None? <==> groups == [] && exts == []
  {
    FirstExtensionNone(exts, remaining, |exts|);
    if groups != [] {
      assert groups[|groups| - 1] in groups;
      BestNewLast(groups, remaining, cross, |groups|);
    }
    if exts != [] {
      assert exts[0] in exts;
    }
  }

  /** A round finds nothing exactly when there is no new group and no extension to find. */
  lemma PickNone(remaining: seq<Card>, floor: seq<seq<Card>>, cross: seq<Card>)
    ensures Pick(remaining, floor, cross).None? <==>
      HandGroups(remaining) == [] && CrossGroups(remaining, cross) == [] && Extensions(remaining, floor) == []
  {
    var cands := Candidates(remaining, cross);
    var exts := Extensions(remaining, floor);
    forall g | g in cands ensures Scores(g, remaining, cross) {
      CandidateScores(remaining, cross, g);
    }
    forall e | e in exts ensures e.card in remaining {
      ExtensionsExact(remaining, floor, e);
    }
    ChooseNone(cands, exts, remaining, cross);
    assert |cands| == |HandGroups(remaining)| + |CrossGroups(remaining, cross)|;
  }

  /** _greedy_play returns None exactly when the hand makes no new group, alone or with a cross card, and extends no floor group. */
  lemma GreedyPlayNone(hand: seq<Card>, floor: seq<seq<Card>>, cross: seq<Card>)
    ensures GreedyPlay(hand, floor, cross).None? <==>
      HandGroups(hand) == [] && CrossGroups(hand, cross) == [] && Extensions(hand, floor) == []
    ensures GreedyPlayFixed(hand, floor, cross).None? <==> GreedyPlay(hand, floor, cross).None?
  {
    PickNone(hand, floor, cross);
  }

  /** With some candidate, the round lays a new group, one of the candidates. */
  lemma PickNew(remaining: seq<Card>, floor: seq<seq<Card>>, cross: seq<Card>)
    requires Candidates(remaining, cross) != []
    ensures Pick(remaining, floor, cross).Some? && Pick(remaining, floor, cross).value.NewGroup?
    ensures Pick(remaining, floor, cross).value.group in Candidates(remaining, cross)
  {
    var cands := Candidates(remaining, cross);
    CandidateScores(remaining, cross, cands[|cands| - 1]);
    BestNewLast(cands, remaining, cross, |cands|);
    assert Pick(remaining, floor, cross) == Choose(cands, Extensions(remaining, floor), remaining, cross);
  }

  /** A round that plays hands the remaining rounds to the table it leaves. */
  lemma RoundsNext(t: Table, n: nat, consume: bool)
    requires n > 0 && Step(t, consume).Some?
    ensures Rounds(t, n, consume) == Rounds(Step(t, consume).value, n - 1, consume)
  {
    assert RoundOf(consume)(t) == Step(t, consume);
  }
}
