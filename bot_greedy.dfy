// The bot's cross-anchoring check and its greedy multi-group play: up to ten
// rounds, each playing the best new group (from the hand alone or around a
// cross card) or else extending one floor group by one hand card.
module BotGreedy {
  import opened Util
  import opened Cards
  import opened Groups
  import opened Engine
  import opened BotGroups

  // ----- _respects_cross_anchoring -----

  /**
   * Walks the groups in order, each card of a group taking one of the cross
   * copies still unclaimed; fails as soon as a group has claimed two.
   */
  method RespectsCrossAnchoring(groups: seq<seq<Card>>, crossCards: seq<Card>) returns (ok: bool)
    ensures ok == CrossAnchored(groups, multiset(crossCards))
  {
    if |crossCards| == 0 {
      CrossAnchoredWithoutCross(groups);
      return true;
    }
    var C := multiset(crossCards);
    var crossSet := Elements(crossCards);
    var remaining := C;
    AnchoredFromStart(groups, C);
    for i := 0 to |groups|
      invariant remaining <= C
      invariant AnchoredFrom(groups, remaining, i) == CrossAnchored(groups, C)
    {
      var count, left := ClaimCopies(groups[i], crossSet, remaining);
      if count > 1 {
        return false;
      }
      remaining := left;
    }
    return true;
  }

  /** The outer loop from group i on, with the cross copies R still unclaimed. */
  predicate AnchoredFrom(groups: seq<seq<Card>>, R: multiset<Card>, i: int)
    requires 0 <= i <= |groups|
    decreases |groups| - i
  {
    i == |groups| || (Claimed(groups[i], R) <= 1 && AnchoredFrom(groups, R - multiset(groups[i]), i + 1))
  }

  /** Run from the start, the outer loop decides CrossAnchored. */
  lemma AnchoredFromStart(groups: seq<seq<Card>>, C: multiset<Card>)
    ensures AnchoredFrom(groups, C, 0) == CrossAnchored(groups, C)
  {
    AnchoredFromRest(groups, C, 0);
    assert groups[..0] == [];
    assert C - Bag(groups[..0]) == C;
    AnchoredByGroup(groups, C);
  }

  lemma {:induction false} AnchoredFromRest(groups: seq<seq<Card>>, C: multiset<Card>, i: int)
    requires 0 <= i <= |groups|
    ensures AnchoredFrom(groups, C - Bag(groups[..i]), i) <==>
      forall p :: i <= p < |groups| ==> ClaimsAtMostOne(groups, p, C)
    decreases |groups| - i
  {
    if i < |groups| {
      ClaimNext(groups, i, C);
      AnchoredFromRest(groups, C, i + 1);
      assert (forall p :: i <= p < |groups| ==> ClaimsAtMostOne(groups, p, C)) <==>
        ClaimsAtMostOne(groups, i, C) && forall p :: i + 1 <= p < |groups| ==> ClaimsAtMostOne(groups, p, C);
    }
  }

  /** The condition CrossAnchored puts on group p. */
  predicate ClaimsAtMostOne(groups: seq<seq<Card>>, p: int, C: multiset<Card>)
    requires 0 <= p < |groups|
  {
    Claimed(groups[p], C - Bag(groups[..p])) <= 1
  }

  lemma AnchoredByGroup(groups: seq<seq<Card>>, C: multiset<Card>)
    ensures CrossAnchored(groups, C) <==> forall p :: 0 <= p < |groups| ==> ClaimsAtMostOne(groups, p, C)
  {
    if CrossAnchored(groups, C) {
      forall p | 0 <= p < |groups| ensures ClaimsAtMostOne(groups, p, C) {
      }
    }
    if forall p :: 0 <= p < |groups| ==> ClaimsAtMostOne(groups, p, C) {
      forall p | 0 <= p < |groups| ensures Claimed(groups[p], C - Bag(groups[..p])) <= 1 {
        assert ClaimsAtMostOne(groups, p, C);
      }
    }
  }

  /** The inner loop: the cross copies one group claims, and the copies left after it. */
  method ClaimCopies(g: seq<Card>, crossSet: set<Card>, R: multiset<Card>) returns (count: nat, left: multiset<Card>)
    requires forall c :: c in R ==> c in crossSet
    ensures count == Claimed(g, R) && left == R - multiset(g)
  {
    count, left := 0, R;
    for j := 0 to |g|
      invariant count == Claimed(g[..j], R)
      invariant left == R - multiset(g[..j])
    {
      ClaimStep(g, j, R);
      if g[j] in crossSet && left[g[j]] > 0 {
        left := left[g[j] := left[g[j]] - 1];
        count := count + 1;
      }
    }
    assert g[..|g|] == g;
  }

  // ----- scoring a new group -----

  /** hand_cards: the cards of g found in the remaining hand, in g's order. */
  function HandPart(g: seq<Card>, remaining: seq<Card>): (r: seq<Card>)
    ensures forall c {:trigger c in r} :: c in r <==> c in g && c in remaining
    ensures multiset(r) <= multiset(g)
  {
    if g == [] then []
    else
      assert g == [g[0]] + g[1..];
      (if g[0] in remaining then [g[0]] else []) + HandPart(g[1..], remaining)
  }

  /** cross_in: the cards of g not in the remaining hand that match a cross card. */
  function CrossPart(g: seq<Card>, remaining: seq<Card>, cross: seq<Card>): (r: seq<Card>)
    ensures forall c {:trigger c in r} :: c in r <==> c in g && c !in remaining && c in cross
    ensures multiset(r) <= multiset(g)
  {
    if g == [] then []
    else
      assert g == [g[0]] + g[1..];
      (if g[0] !in remaining && g[0] in cross then [g[0]] else []) + CrossPart(g[1..], remaining, cross)
  }

  /** A group can be played when its hand cards and cross cards make up all of it. */
  predicate Playable(g: seq<Card>, remaining: seq<Card>, cross: seq<Card>)
  {
    |HandPart(g, remaining)| + |CrossPart(g, remaining, cross)| == |g|
  }

  /** A new group scores the number of hand cards it plays. */
  function Score(g: seq<Card>, remaining: seq<Card>): nat
  {
    |HandPart(g, remaining)|
  }

  /** The cards of g neither in the remaining hand nor among the cross cards. */
  function Strays(g: seq<Card>, remaining: seq<Card>, cross: seq<Card>): nat
  {
    if g == [] then 0
    else (if g[0] !in remaining && g[0] !in cross then 1 else 0) + Strays(g[1..], remaining, cross)
  }

  /** Each card of g is a hand card, a cross card or a stray, and only one of them. */
  lemma {:induction false} PartsCover(g: seq<Card>, remaining: seq<Card>, cross: seq<Card>)
    ensures |HandPart(g, remaining)| + |CrossPart(g, remaining, cross)| + Strays(g, remaining, cross) == |g|
  {
    if g != [] {
      PartsCover(g[1..], remaining, cross);
    }
  }

  lemma {:induction false} NoStrays(g: seq<Card>, remaining: seq<Card>, cross: seq<Card>)
    ensures Strays(g, remaining, cross) == 0 <==> forall c :: c in g ==> c in remaining || c in cross
  {
    if g != [] {
      NoStrays(g[1..], remaining, cross);
      assert g == [g[0]] + g[1..];
    }
  }

  /** A group is playable exactly when every card of it is held or is a cross card. */
  lemma PlayableIff(g: seq<Card>, remaining: seq<Card>, cross: seq<Card>)
    ensures |HandPart(g, remaining)| + |CrossPart(g, remaining, cross)| <= |g|
    ensures Playable(g, remaining, cross) <==> forall c :: c in g ==> c in remaining || c in cross
  {
    PartsCover(g, remaining, cross);
    NoStrays(g, remaining, cross);
  }

  // ----- choosing the play of one round -----

  datatype Play = NewGroup(group: seq<Card>) | Extend(ext: Extension)

  /**
   * The scoring loop over the first n new groups: the group kept is the first
   * playable one whose score beats every earlier score and 0.
   */
  function BestNew(groups: seq<seq<Card>>, remaining: seq<Card>, cross: seq<Card>, n: int): (best: Option<seq<Card>>)
    requires 0 <= n <= |groups|
    ensures best.Some? ==> best.value in groups && Playable(best.value, remaining, cross) && Score(best.value, remaining) > 0
  {
    if n == 0 then None else Better(BestNew(groups, remaining, cross, n - 1), groups[n - 1], remaining, cross)
  }

  /** One turn of the scoring loop: g replaces the best so far when playable and scoring more. */
  function Better(best: Option<seq<Card>>, g: seq<Card>, remaining: seq<Card>, cross: seq<Card>): Option<seq<Card>>
  {
    if Playable(g, remaining, cross) && Score(g, remaining) > BestScore(best, remaining) then Some(g) else best
  }

  /** best_score while only new groups have been scored. */
  function BestScore(best: Option<seq<Card>>, remaining: seq<Card>): nat
  {
    if best.Some? then Score(best.value, remaining) else 0
  }

  /** The extension loop over the first n extensions, when no new group scored: the first whose card is held. */
  function FirstExtension(exts: seq<Extension>, remaining: seq<Card>, n: int): (first: Option<Extension>)
    requires 0 <= n <= |exts|
    ensures first.Some? ==> first.value in exts && first.value.card in remaining
  {
    if n == 0 then None
    else
      var first := FirstExtension(exts, remaining, n - 1);
      if first.None? && exts[n - 1].card in remaining then Some(exts[n - 1]) else first
  }

  /** best_play after both scoring loops; an extension only counts when no new group scored. */
  function Choose(groups: seq<seq<Card>>, exts: seq<Extension>, remaining: seq<Card>, cross: seq<Card>): (p: Option<Play>)
    ensures p.Some? && p.value.Extend? ==> p.value.ext in exts && p.value.ext.card in remaining
  {
    var best := BestNew(groups, remaining, cross, |groups|);
    if best.Some? then Some(NewGroup(best.value))
    else
      var first := FirstExtension(exts, remaining, |exts|);
      if first.Some? then Some(Extend(first.value)) else None
  }

  /** The new groups of one round: from the hand alone, then around the cross. */
  function Candidates(remaining: seq<Card>, cross: seq<Card>): seq<seq<Card>>
  {
    HandGroups(remaining) + CrossGroups(remaining, cross)
  }

  /** The play of one round. */
  function Pick(remaining: seq<Card>, floor: seq<seq<Card>>, cross: seq<Card>): (p: Option<Play>)
    ensures p.Some? && p.value.Extend? ==> p.value.ext in Extensions(remaining, floor) && p.value.ext.card in remaining
  {
    Choose(Candidates(remaining, cross), Extensions(remaining, floor), remaining, cross)
  }

  // ----- playing it -----

  /** list.remove: the list without the first copy of x. */
  function RemoveFirst(xs: seq<Card>, x: Card): (r: seq<Card>)
    requires x in xs
    ensures multiset(r) == multiset(xs) - multiset{x}
  {
    assert xs == [xs[0]] + xs[1..];
    if xs[0] == x then xs[1..] else [xs[0]] + RemoveFirst(xs[1..], x)
  }

  /**
   * The card loop of a new group: each card still in the hand leaves it and
   * is played; the others (the cross cards) are skipped.
   */
  function Take(group: seq<Card>, remaining: seq<Card>): (r: (seq<Card>, seq<Card>, seq<Card>))
  {
    if group == [] then (remaining, [], [])
    else if group[0] in remaining then
      var r := Take(group[1..], RemoveFirst(remaining, group[0]));
      (r.0, [group[0]] + r.1, r.2)
    else
      var r := Take(group[1..], remaining);
      (r.0, r.1, [group[0]] + r.2)
  }

  /**
   * The table between rounds: the remaining hand, the floor, the cards played
   * so far, and the cross cards a group may still incorporate.
   */
  datatype Table = Table(remaining: seq<Card>, floor: seq<seq<Card>>, played: seq<Card>, crossLeft: seq<Card>)

  /**
   * One round's play applied. With consume false, as the bot is written, the
   * cross cards a new group incorporates stay available to later rounds; with
   * consume true they leave crossLeft.
   */
  function Apply(t: Table, p: Play, consume: bool): Table
    requires p.Extend? ==> 0 <= p.ext.index < |t.floor| && p.ext.card in t.remaining
  {
    match p
    case NewGroup(g) =>
      var r := Take(g, t.remaining);
      Table(r.0, t.floor + [g], t.played + r.1, if consume then Without(t.crossLeft, multiset(r.2)) else t.crossLeft)
    case Extend(e) =>
      Table(RemoveFirst(t.remaining, e.card), t.floor[e.index := e.group], t.played + [e.card], t.crossLeft)
  }

  /** One round: the table after the round's play, or None when there is nothing to play. */
  function Step(t: Table, consume: bool): Option<Table>
  {
    var p := Pick(t.remaining, t.floor, t.crossLeft);
    if p.None? then None
    else if p.value.NewGroup? then Some(Apply(t, p.value, consume))
    else
      ExtensionsExact(t.remaining, t.floor, p.value.ext);
      Some(Apply(t, p.value, consume))
  }

  /** Up to n more rounds of step, stopping at the first round with nothing to play. */
  function Iterate(step: Table -> Option<Table>, t: Table, n: nat): Table
    decreases n
  {
    if n == 0 then t
    else
      var next := step(t);
      if next.None? then t else Iterate(step, next.value, n - 1)
  }

  /** One round of the bot, as a function of the table. */
  function RoundOf(consume: bool): Table -> Option<Table>
  {
    t => Step(t, consume)
  }

  /** Up to n more rounds of the bot. */
  function Rounds(t: Table, n: nat, consume: bool): Table
  {
    Iterate(RoundOf(consume), t, n)
  }

  /** The cap on rounds. */
  const MaxRounds: nat := 10

  datatype Outcome = Outcome(floor: seq<seq<Card>>, played: seq<Card>)

  /** _greedy_play as written: None when the first round finds nothing. */
  function GreedyPlay(hand: seq<Card>, floor: seq<seq<Card>>, cross: seq<Card>): Option<Outcome>
  {
    var start := Table(hand, floor, [], cross);
    if Step(start, false).None? then None
    else
      var t := Rounds(start, MaxRounds, false);
      Some(Outcome(t.floor, t.played))
  }

  /** _greedy_play with each incorporated cross card used up. */
  function GreedyPlayFixed(hand: seq<Card>, floor: seq<seq<Card>>, cross: seq<Card>): Option<Outcome>
  {
    var start := Table(hand, floor, [], cross);
    if Step(start, true).None? then None
    else
      var t := Rounds(start, MaxRounds, true);
      Some(Outcome(t.floor, t.played))
  }

  // ----- the loops -----

  /**
   * The loop of _greedy_play: the remaining hand, the modified floor and the
   * played cards live in one table, updated round by round.
   */
  method GreedyPlayLoop(hand: seq<Card>, floor: seq<seq<Card>>, cross: seq<Card>) returns (result: Option<Outcome>)
    ensures result == GreedyPlay(hand, floor, cross)
  {
    ghost var start := Table(hand, floor, [], cross);
    var t := Table(hand, floor, [], cross);
    var madeAny := false;
    ghost var goal := Rounds(start, MaxRounds, false);
    for round := 0 to MaxRounds
      invariant Reaches(t, round, goal)
      invariant madeAny <==> round > 0
      invariant round == 0 ==> t == start
      invariant madeAny ==> Step(start, false).Some?
    {
      var next := PlayRound(t);
      if next.None? {
        RoundsStop(t, round, goal);
        break;
      }
      RoundsAdvance(t, round, next.value, goal);
      t := next.value;
      madeAny := true;
    }
    RoundsDone(t, goal);
    if !madeAny {
      return None;
    }
    return Some(Outcome(t.floor, t.played));
  }

  /** With done rounds played and the table at t, the rounds left end at goal. */
  ghost predicate Reaches(t: Table, done: int, goal: Table)
  {
    0 <= done <= MaxRounds && Rounds(t, MaxRounds - done, false) == goal
  }

  /** A round that finds a play leaves the rest of the rounds to the next table. */
  lemma RoundsAdvance(t: Table, done: int, next: Table, goal: Table)
    requires done < MaxRounds && Step(t, false) == Some(next) && Reaches(t, done, goal)
    ensures Reaches(next, done + 1, goal)
  {
  }

  /** A round that finds nothing ends the rounds. */
  lemma RoundsStop(t: Table, done: int, goal: Table)
    requires done < MaxRounds && Step(t, false).None? && Reaches(t, done, goal)
    ensures t == goal
  {
  }

  /** After the last round the table is the goal. */
  lemma RoundsDone(t: Table, goal: Table)
    requires Reaches(t, MaxRounds, goal)
    ensures t == goal
  {
  }

  /** One round of the loop: find the candidates, score them and play the best, if any. */
  method PlayRound(t: Table) returns (next: Option<Table>)
    ensures next == Step(t, false)
  {
    var remaining, floor, cross := t.remaining, t.floor, t.crossLeft;
    var handGroups := FindHandGroups(remaining);
    var crossGroups := FindCrossGroups(remaining, cross);
    var extensions := FindFloorExtensions(remaining, floor);
    var best := ScorePlays(handGroups + crossGroups, extensions, remaining, cross);
    assert best == Pick(remaining, floor, cross);
    if best.None? {
      return None;
    }
    var after := PlayBest(t, best.value);
    next := Some(after);
  }

  /** The body of the loop once a play is chosen: update the hand, the floor and the played cards. */
  method PlayBest(t: Table, p: Play) returns (after: Table)
    requires p.Extend? ==> p.ext in Extensions(t.remaining, t.floor) && p.ext.card in t.remaining
    ensures p.Extend? ==> 0 <= p.ext.index < |t.floor|
    ensures after == Apply(t, p, false)
  {
    match p {
      case NewGroup(g) =>
        var rest, played' := TakeCards(g, t.remaining, t.played);
        after := Table(rest, t.floor + [g], played', t.crossLeft);
      case Extend(e) =>
        ExtensionsExact(t.remaining, t.floor, e);
        after := Table(RemoveFirst(t.remaining, e.card), t.floor[e.index := e.group], t.played + [e.card], t.crossLeft);
    }
  }

  /** Both scoring loops of one round. */
  method ScorePlays(groups: seq<seq<Card>>, exts: seq<Extension>, remaining: seq<Card>, cross: seq<Card>)
    returns (best: Option<Play>)
    ensures best == Choose(groups, exts, remaining, cross)
  {
    var bestGroup, bestScore := ScoreNewGroups(groups, remaining, cross);
    best := if bestGroup.Some? then Some(NewGroup(bestGroup.value)) else None;
    best := ScoreExtensions(exts, remaining, best, bestScore);
  }

  /** The scoring loop over new groups. */
  method ScoreNewGroups(groups: seq<seq<Card>>, remaining: seq<Card>, cross: seq<Card>)
    returns (best: Option<seq<Card>>, bestScore: nat)
    ensures best == BestNew(groups, remaining, cross, |groups|)
    ensures bestScore == BestScore(best, remaining)
  {
    best, bestScore := None, 0;
    for k := 0 to |groups|
      invariant best == BestNew(groups, remaining, cross, k)
      invariant bestScore == BestScore(best, remaining)
    {
      best, bestScore := ScoreGroup(groups[k], remaining, cross, best, bestScore);
    }
  }

  /** The body of the scoring loop for one group. */
  method ScoreGroup(group: seq<Card>, remaining: seq<Card>, cross: seq<Card>, best0: Option<seq<Card>>, bestScore0: nat)
    returns (best: Option<seq<Card>>, bestScore: nat)
    requires bestScore0 == BestScore(best0, remaining)
    ensures best == Better(best0, group, remaining, cross) && bestScore == BestScore(best, remaining)
  {
    best, bestScore := best0, bestScore0;
    var handCards := HandPart(group, remaining);
    var crossIn := CrossPart(group, remaining, cross);
    if |handCards| + |crossIn| == |group| {
      var score := |handCards|;
      if score > bestScore {
        bestScore := score;
        best := Some(group);
      }
    }
  }

  /** The extension loop: only with no new group scored does the first held extension become the play. */
  method ScoreExtensions(exts: seq<Extension>, remaining: seq<Card>, best0: Option<Play>, bestScore0: nat)
    returns (best: Option<Play>)
    requires best0.Some? <==> bestScore0 >= 1
    ensures best == if best0.Some? then best0
      else (var f := FirstExtension(exts, remaining, |exts|); if f.Some? then Some(Extend(f.value)) else None)
  {
    best := best0;
    var bestScore := bestScore0;
    for k := 0 to |exts|
      invariant best0.Some? ==> best == best0 && bestScore >= 1
      invariant best0.None? ==>
        (var f := FirstExtension(exts, remaining, k); best == (if f.Some? then Some(Extend(f.value)) else None)) &&
        bestScore == (if best.Some? then 1 else 0)
    {
      if exts[k].card in remaining {
        if 1 > bestScore {
          bestScore := 1;
          best := Some(Extend(exts[k]));
        }
      }
    }
  }

  /** The card loop of a new group, on the remaining hand and the played list. */
  method TakeCards(group: seq<Card>, remaining: seq<Card>, played: seq<Card>) returns (rest: seq<Card>, played': seq<Card>)
    ensures rest == Take(group, remaining).0 && played' == played + Take(group, remaining).1
  {
    rest, played' := remaining, played;
    for j := 0 to |group|
      invariant Take(group[j..], rest).0 == Take(group, remaining).0
      invariant played' + Take(group[j..], rest).1 == played + Take(group, remaining).1
    {
      assert group[j..][1..] == group[j + 1..];
      var c := group[j];
      if c in rest {
        rest := RemoveFirst(rest, c);
        played' := played' + [c];
      }
    }
    assert group[|group|..] == [];
  }

  // ----- what one round chooses -----

  lemma {:induction false} FirstExtensionAt(exts: seq<Extension>, remaining: seq<Card>, n: int) returns (k: int)
    requires 0 <= n <= |exts| && FirstExtension(exts, remaining, n).Some?
    ensures 0 <= k < n && FirstExtension(exts, remaining, n) == Some(exts[k]) && exts[k].card in remaining
    ensures forall p :: 0 <= p < k ==> exts[p].card !in remaining
  {
    if FirstExtension(exts, remaining, n - 1).Some? {
      k := FirstExtensionAt(exts, remaining, n - 1);
    } else {
      k := n - 1;
      FirstExtensionNone(exts, remaining, n - 1);
    }
  }

  lemma {:induction false} FirstExtensionNone(exts: seq<Extension>, remaining: seq<Card>, n: int)
    requires 0 <= n <= |exts|
    ensures FirstExtension(exts, remaining, n).None? <==> forall p :: 0 <= p < n ==> exts[p].card !in remaining
  {
    if n > 0 {
      FirstExtensionNone(exts, remaining, n - 1);
    }
  }
}
