// The incremental solver behind solve_hand: keep as many floor groups intact
// as possible, dissolving the groups most related to the hand first, and fall
// back to a full solve.  solve_hand itself tries to place every cross card,
// then leaves out one, two, ... of them.  Deadlines are the tick budget of
// Solver.Solve: "the deadline has passed" is "no ticks left".
module Incremental {
  import opened Util
  import opened Sorting
  import opened Cards
  import opened Groups
  import opened Pool
  import opened Solver

  /** _MAX_ATTEMPTS: the cap on the number of sub-problems tried. */
  const MAX_ATTEMPTS := 50000

  /** _SUB_TIMEOUT as ticks: the most one sub-problem may spend. */
  const SUB_BUDGET: nat := 5000

  function Min(a: nat, b: nat): (m: nat)
    ensures m <= a && m <= b && (m == a || m == b)
  {
    if a <= b then a else b
  }

  // ----- _relevance_scores -----

  function HandRanks(hand: seq<Card>): set<int>
  {
    set c | c in hand :: c.rank
  }

  function HandSuits(hand: seq<Card>): set<Suit>
  {
    set c | c in hand :: c.suit
  }

  /** Each card scores 2 when the hand holds its rank and 1 when it holds its suit. */
  function Score(g: seq<Card>, ranks: set<int>, suits: set<Suit>): int
  {
    if g == [] then 0
    else
      var c := g[|g| - 1];
      Score(g[..|g| - 1], ranks, suits) + (if c.rank in ranks then 2 else 0) + (if c.suit in suits then 1 else 0)
  }

  /** How relevant a floor group is to placing the hand. */
  function Relevance(g: seq<Card>, hand: seq<Card>): int
  {
    Score(g, HandRanks(hand), HandSuits(hand))
  }

  /** A group scores between 0 and 3 per card. */
  lemma {:induction false} ScoreBounds(g: seq<Card>, ranks: set<int>, suits: set<Suit>)
    ensures 0 <= Score(g, ranks, suits) <= 3 * |g|
  {
    if g != [] {
      ScoreBounds(g[..|g| - 1], ranks, suits);
    }
  }

  lemma {:induction false} ScoreZeroIff(g: seq<Card>, ranks: set<int>, suits: set<Suit>)
    ensures Score(g, ranks, suits) == 0 <==> forall c :: c in g ==> c.rank !in ranks && c.suit !in suits
  {
    if g != [] {
      var front := g[..|g| - 1];
      ScoreZeroIff(front, ranks, suits);
      ScoreBounds(front, ranks, suits);
      assert g == front + [g[|g| - 1]];
    }
  }

  /**
   * A floor group scores 0 exactly when none of its cards shares a rank or a
   * suit with a hand card; otherwise it scores at most 3 per card.
   */
  lemma RelevanceZeroIff(g: seq<Card>, hand: seq<Card>)
    ensures 0 <= Relevance(g, hand) <= 3 * |g|
    ensures Relevance(g, hand) == 0 <==>
      forall c, h :: c in g && h in hand ==> c.rank != h.rank && c.suit != h.suit
  {
    ScoreBounds(g, HandRanks(hand), HandSuits(hand));
    ScoreZeroIff(g, HandRanks(hand), HandSuits(hand));
    if Relevance(g, hand) != 0 {
      var c :| c in g && (c.rank in HandRanks(hand) || c.suit in HandSuits(hand));
      if c.rank in HandRanks(hand) {
        var h :| h in hand && h.rank == c.rank;
      } else {
        var h :| h in hand && h.suit == c.suit;
      }
    }
  }

  /** scores lists (i, relevance of floor[i]) for every floor group, in floor order. */
  predicate Scored(scores: seq<(int, int)>, hand: seq<Card>, floor: seq<seq<Card>>)
  {
    |scores| == |floor| && forall i :: 0 <= i < |floor| ==> scores[i] == (i, Relevance(floor[i], hand))
  }

  method RelevanceScores(hand: seq<Card>, floor: seq<seq<Card>>) returns (scores: seq<(int, int)>)
    ensures Scored(scores, hand, floor)
  {
    var ranks := HandRanks(hand);
    var suits := HandSuits(hand);
    scores := [];
    var i := 0;
    while i < |floor|
      invariant 0 <= i <= |floor|
      invariant Scored(scores, hand, floor[..i])
    {
      var g := floor[i];
      var score := 0;
      var t := 0;
      while t < |g|
        invariant 0 <= t <= |g|
        invariant score == Score(g[..t], ranks, suits)
      {
        var c := g[t];
        assert g[..t + 1][..t] == g[..t];
        if c.rank in ranks {
          score := score + 2;
        }
        if c.suit in suits {
          score := score + 1;
        }
        t := t + 1;
      }
      assert g[..t] == g;
      scores := scores + [(i, score)];
      i := i + 1;
    }
    assert floor[..i] == floor;
  }

  // ----- the relevant groups, most relevant first -----

  function NegScore(p: (int, int)): int
  {
    -p.1
  }

  function Index(p: (int, int)): int
  {
    p.0
  }

  /** The entries with a positive score, in order. */
  function Positive(s: seq<(int, int)>): seq<(int, int)>
  {
    if s == [] then [] else (if s[0].1 > 0 then [s[0]] else []) + Positive(s[1..])
  }

  function Firsts(s: seq<(int, int)>): (r: seq<int>)
    ensures |r| == |s| && forall j :: 0 <= j < |s| ==> r[j] == s[j].0
  {
    seq(|s|, j requires 0 <= j < |s| => s[j].0)
  }

  /** relevant: the indices of groups with a positive score, sorted by score, highest first. */
  function RelevantIndices(scores: seq<(int, int)>): seq<int>
  {
    Firsts(Positive(SortBy(scores, NegScore)))
  }

  lemma {:induction false} PositiveMembers(s: seq<(int, int)>)
    ensures forall p :: p in Positive(s) <==> p in s && p.1 > 0
  {
    if s != [] {
      PositiveMembers(s[1..]);
      assert s == [s[0]] + s[1..];
    }
  }

  lemma {:induction false} PositiveSorted(s: seq<(int, int)>)
    requires SortedByThen(s, NegScore, Index)
    ensures SortedByThen(Positive(s), NegScore, Index)
  {
    if s != [] {
      SortedThenSplit(s, NegScore, Index);
      PositiveSorted(s[1..]);
      if s[0].1 > 0 {
        PositiveMembers(s[1..]);
        ConsSortedThen(s[0], Positive(s[1..]), NegScore, Index);
      }
    }
  }

  /**
   * relevant holds each floor index whose group scores above 0, exactly once,
   * ordered by score from highest to lowest and, among equal scores, by index
   * (Python's sort is stable).
   */
  /** The membership half of RelevantOrder. */
  lemma RelevantListed(scores: seq<(int, int)>, hand: seq<Card>, floor: seq<seq<Card>>)
    requires Scored(scores, hand, floor)
    ensures forall i :: i in RelevantIndices(scores) <==> 0 <= i < |floor| && Relevance(floor[i], hand) > 0
    ensures NoDup(RelevantIndices(scores)) && InRange(RelevantIndices(scores), |floor|)
  {
    RelevantOrder(scores, hand, floor);
  }

  lemma RelevantOrder(scores: seq<(int, int)>, hand: seq<Card>, floor: seq<seq<Card>>)
    requires Scored(scores, hand, floor)
    ensures forall i :: i in RelevantIndices(scores) <==> 0 <= i < |floor| && Relevance(floor[i], hand) > 0
    ensures NoDup(RelevantIndices(scores)) && InRange(RelevantIndices(scores), |floor|)
    ensures forall a, b :: 0 <= a < b < |RelevantIndices(scores)| ==>
      var r := RelevantIndices(scores);
      Relevance(floor[r[a]], hand) > Relevance(floor[r[b]], hand) ||
      (Relevance(floor[r[a]], hand) == Relevance(floor[r[b]], hand) && r[a] < r[b])
  {
    var sorted := SortBy(scores, NegScore);
    SortByFacts(scores, NegScore);
    SortByStable(scores, NegScore, Index);
    var pos := Positive(sorted);
    PositiveMembers(sorted);
    PositiveSorted(sorted);
    var r := RelevantIndices(scores);
    assert r == Firsts(pos);
    forall j | 0 <= j < |pos| ensures 0 <= pos[j].0 < |floor| && pos[j] == scores[pos[j].0] && pos[j].1 > 0 {
      assert pos[j] in pos;
      assert pos[j] in multiset(scores);
    }
    forall i ensures i in r <==> 0 <= i < |floor| && Relevance(floor[i], hand) > 0 {
      if 0 <= i < |floor| && Relevance(floor[i], hand) > 0 {
        assert scores[i] in multiset(sorted);
        assert scores[i] in pos;
        var j :| 0 <= j < |pos| && pos[j] == scores[i];
        assert r[j] == i;
      }
    }
    forall a, b | 0 <= a < b < |r| ensures r[a] != r[b] {
      assert pos[a] == scores[r[a]] && pos[b] == scores[r[b]];
    }
  }

  // ----- _solve_incremental -----

  /** The hand's cards followed by those of the dissolved groups, in the given order. */
  method PoolCards(hand: seq<Card>, floor: seq<seq<Card>>, indices: seq<int>) returns (cards: seq<Card>)
    requires InRange(indices, |floor|)
    ensures multiset(cards) == multiset(hand) + Bag(Picked(floor, indices))
  {
    cards := hand;
    var t := 0;
    while t < |indices|
      invariant 0 <= t <= |indices|
      invariant InRange(indices[..t], |floor|)
      invariant multiset(cards) == multiset(hand) + Bag(Picked(floor, indices[..t]))
    {
      var g := floor[indices[t]];
      ghost var before := Picked(floor, indices[..t]);
      assert Picked(floor, indices[..t + 1]) == before + [g];
      assert (before + [g])[..|before|] == before;
      cards := cards + g;
      t := t + 1;
    }
    assert indices[..t] == indices;
  }

  /** The solved groups followed by every floor group that was not dissolved, in floor order. */
  method KeepUndissolved(solved: seq<seq<Card>>, floor: seq<seq<Card>>, indices: seq<int>)
    returns (full: seq<seq<Card>>)
    ensures full == solved + Kept(floor, indices)
  {
    full := solved;
    var i := 0;
    while i < |floor|
      invariant 0 <= i <= |floor|
      invariant full == solved + Kept(floor[..i], indices)
    {
      assert floor[..i + 1][..i] == floor[..i];
      if i !in indices {
        full := full + [floor[i]];
      }
      i := i + 1;
    }
    assert floor[..i] == floor;
  }

  /**
   * Re-partitioning the hand with some dissolved groups and keeping the rest
   * places every card exactly once, and keeps a valid floor valid.
   */
  lemma Conservation(hand: seq<Card>, floor: seq<seq<Card>>, d: seq<int>, solved: seq<seq<Card>>)
    requires NoDup(d) && InRange(d, |floor|)
    requires IsPartition(solved, multiset(hand) + Bag(Picked(floor, d)))
    ensures Bag(solved + Kept(floor, d)) == multiset(hand) + Bag(floor)
    ensures AllValid(floor) ==> AllValid(solved + Kept(floor, d))
  {
    var picked, kept := Picked(floor, d), Kept(floor, d);
    PickedKeptSplit(floor, d);
    assert multiset(picked + kept) == multiset(floor);
    BagPermutation(picked + kept, floor);
    BagAppend(picked, kept);
    BagAppend(solved, kept);
    if AllValid(floor) {
      KeptMembers(floor, d);
      var u := solved + kept;
      forall i | 0 <= i < |u| ensures IsValidGroup(u[i]) {
        if i >= |solved| {
          assert u[i] == kept[i - |solved|];
          assert u[i] in floor;
        }
      }
    }
  }

  /** The cards of a pool made from the hand and the dissolved groups d. */
  ghost function Dissolved(hand: seq<Card>, floor: seq<seq<Card>>, d: seq<int>): multiset<Card>
    requires InRange(d, |floor|)
  {
    multiset(hand) + Bag(Picked(floor, d))
  }

  /**
   * One sub-problem: pool the hand with the groups at `indices`, solve that
   * pool, and on success append the groups that were not dissolved.
   */
  method Attempt(hand: seq<Card>, floor: seq<seq<Card>>, indices: seq<int>, budget: nat)
    returns (result: Option<seq<seq<Card>>>, left: nat, ghost solved: seq<seq<Card>>)
    requires NoDup(indices) && InRange(indices, |floor|)
    ensures left <= budget
    ensures result.Some? ==>
      IsPartition(solved, Dissolved(hand, floor, indices)) && result.value == solved + Kept(floor, indices)
    ensures result.Some? ==> Bag(result.value) == multiset(hand) + Bag(floor)
    ensures result.Some? && AllValid(floor) ==> AllValid(result.value)
    ensures result == None && left > 0 ==> !Partitionable(Dissolved(hand, floor, indices))
  {
    var cards := PoolCards(hand, floor, indices);
    var pool := CardPool.FromCards(cards);
    var res;
    res, left := Solve(pool, budget);
    solved := [];
    if res.Some? {
      solved := res.value;
      var full := KeepUndissolved(res.value, floor, indices);
      Conservation(hand, floor, indices, res.value);
      return Some(full), left, solved;
    }
    result := None;
  }

  /**
   * _solve_incremental.  On success the result is a partition `solved` of the
   * hand plus the dissolved groups, followed by the other floor groups
   * unchanged and in order; the dissolved groups are all relevant ones, or the
   * whole floor (the fallback).  The result places exactly the hand and floor
   * cards.  A failure with ticks to spare comes from the full solve, so then
   * nothing at all partitions the hand and the floor together.
   */
  method SolveIncremental(hand: seq<Card>, floor: seq<seq<Card>>, budget: nat)
    returns (result: Option<seq<seq<Card>>>, left: nat, ghost solved: seq<seq<Card>>, ghost dissolved: seq<int>)
    ensures left <= budget
    ensures hand == [] ==> result == Some(floor)
    ensures result.Some? ==>
      NoDup(dissolved) && InRange(dissolved, |floor|) &&
      IsPartition(solved, Dissolved(hand, floor, dissolved)) &&
      result.value == solved + Kept(floor, dissolved)
    ensures result.Some? ==>
      dissolved == Range(|floor|) ||
      forall j :: 0 <= j < |dissolved| ==> 0 <= dissolved[j] < |floor| && Relevance(floor[dissolved[j]], hand) > 0
    ensures result.Some? ==> Bag(result.value) == multiset(hand) + Bag(floor)
    ensures result.Some? && AllValid(floor) ==> AllValid(result.value)
    ensures result == None && left > 0 ==> !Partitionable(multiset(hand) + Bag(floor))
  {
    if hand == [] {
      KeptNothing(floor);
      Conservation(hand, floor, [], []);
      return Some(floor), budget, [], [];
    }
    if floor == [] {
      // An empty floor: solve the hand on its own.
      assert Dissolved(hand, floor, []) == multiset(hand) + Bag(floor);
      result, left, solved := Attempt(hand, floor, [], budget);
      dissolved := [];
      return;
    }

    var scored := RelevanceScores(hand, floor);
    var relevant := RelevantIndices(scored);
    RelevantListed(scored, hand, floor);
    left := budget;
    var tried := 0;
    var k := 0;
    while k <= |relevant|
      invariant left <= budget
      decreases |relevant| + 1 - k
    {
      var combos := Combinations(relevant, k);
      var j := 0;
      while j < |combos|
        invariant 0 <= j <= |combos| && left <= budget
      {
        if left == 0 {
          return None, 0, [], [];
        }
        tried := tried + 1;
        if tried > MAX_ATTEMPTS {
          break;
        }
        var indices := combos[j];
        CombinationInRange(relevant, k, indices, |floor|);
        var sub := Min(left, SUB_BUDGET);
        var res, subLeft, subSolved := Attempt(hand, floor, indices, sub);
        left := left - (sub - subLeft);
        if res.Some? {
          return res, left, subSolved, indices;
        }
        j := j + 1;
      }
      if tried > MAX_ATTEMPTS || left == 0 {
        break;
      }
      k := k + 1;
    }

    // Fallback: dissolve every group and solve everything with the ticks left.
    if left > 0 {
      var all := Range(|floor|);
      PickedAll(floor);
      var res, finalLeft, allSolved := Attempt(hand, floor, all, left);
      left := finalLeft;
      if res.Some? {
        return res, left, allSolved, all;
      }
    }
    return None, left, [], [];
  }

  // ----- solve_hand -----

  /** The cards to place when the cross cards at the positions in e are left out. */
  ghost function Placed(hand: seq<Card>, cross: seq<Card>, e: seq<int>, floor: seq<seq<Card>>): multiset<Card>
  {
    multiset(hand + Kept(cross, e)) + Bag(floor)
  }

  /** Every combination of one size failed: the failures extend to the next size. */
  lemma ExtendLevel(hand: seq<Card>, cross: seq<Card>, floor: seq<seq<Card>>, n: nat)
    requires forall m, e :: 0 <= m < n && e in Combinations(Range(|cross|), m) ==>
      !Partitionable(Placed(hand, cross, e, floor))
    requires forall j :: 0 <= j < |Combinations(Range(|cross|), n)| ==>
      !Partitionable(Placed(hand, cross, Combinations(Range(|cross|), n)[j], floor))
    ensures forall m, e :: 0 <= m < n + 1 && e in Combinations(Range(|cross|), m) ==>
      !Partitionable(Placed(hand, cross, e, floor))
  {
    forall m, e | 0 <= m < n + 1 && e in Combinations(Range(|cross|), m)
      ensures !Partitionable(Placed(hand, cross, e, floor))
    {
      if m == n {
        var j :| 0 <= j < |Combinations(Range(|cross|), n)| && Combinations(Range(|cross|), n)[j] == e;
      }
    }
  }

  /** One more failed combination of the current size. */
  lemma ExtendTried(hand: seq<Card>, cross: seq<Card>, floor: seq<seq<Card>>, combos: seq<seq<int>>, i: int)
    requires 0 <= i < |combos|
    requires forall j :: 0 <= j < i ==> !Partitionable(Placed(hand, cross, combos[j], floor))
    requires !Partitionable(Placed(hand, cross, combos[i], floor))
    ensures forall j :: 0 <= j < i + 1 ==> !Partitionable(Placed(hand, cross, combos[j], floor))
  {
  }

  /**
   * solve_hand: try to place every cross card, then leave out 1, 2, ... of
   * them (combinations of positions, in itertools order).  On success the
   * target places the hand, the included cross cards and the floor, and the
   * cross cards left out are returned in excluded order; every card is either
   * placed or left over.  With ticks to spare, every smaller exclusion was
   * shown impossible, and a failure means no exclusion at all works.
   */
  method SolveHand(hand: seq<Card>, floor: seq<seq<Card>>, cross: seq<Card>, budget: nat)
    returns (solvable: bool, target: Option<seq<seq<Card>>>, remaining: seq<Card>, left: nat, ghost excluded: seq<int>)
    ensures left <= budget
    ensures solvable <==> target.Some?
    ensures !solvable ==> target == None && remaining == []
    ensures solvable ==>
      excluded in Combinations(Range(|cross|), |excluded|) && InRange(excluded, |cross|) &&
      remaining == Picked(cross, excluded) &&
      Bag(target.value) == Placed(hand, cross, excluded, floor) &&
      Bag(target.value) + multiset(remaining) == multiset(hand) + multiset(cross) + Bag(floor)
    ensures solvable && AllValid(floor) ==> AllValid(target.value)
    ensures solvable && left > 0 ==>
      forall m, e :: 0 <= m < |excluded| && e in Combinations(Range(|cross|), m) ==>
        !Partitionable(Placed(hand, cross, e, floor))
    ensures !solvable && left > 0 ==>
      forall m, e :: 0 <= m <= |cross| && e in Combinations(Range(|cross|), m) ==>
        !Partitionable(Placed(hand, cross, e, floor))
  {
    left := budget;
    var positions := Range(|cross|);
    PickedAll(cross);
    var n := 0;
    while n <= |cross|
      invariant 0 <= n <= |cross| + 1 && left <= budget
      invariant left > 0 ==> forall m, e :: 0 <= m < n && e in Combinations(positions, m) ==>
        !Partitionable(Placed(hand, cross, e, floor))
    {
      var combos := Combinations(positions, n);
      var i := 0;
      while i < |combos|
        invariant 0 <= i <= |combos| && left <= budget
        invariant left > 0 ==> forall m, e :: 0 <= m < n && e in Combinations(positions, m) ==>
          !Partitionable(Placed(hand, cross, e, floor))
        invariant left > 0 ==> forall j :: 0 <= j < i ==> !Partitionable(Placed(hand, cross, combos[j], floor))
      {
        if left == 0 {
          break;
        }
        var e := combos[i];
        var included := Kept(cross, e);
        var result, l, solved, dissolved := SolveIncremental(hand + included, floor, left);
        if result.Some? {
          CombinationInRange(positions, n, e, |cross|);
          PickedKeptSplit(cross, e);
          return true, result, Picked(cross, e), l, e;
        }
        if l > 0 {
          ExtendTried(hand, cross, floor, combos, i);
        }
        left := l;
        i := i + 1;
      }
      if left > 0 {
        ExtendLevel(hand, cross, floor, n);
      }
      n := n + 1;
    }
    return false, None, [], left, [];
  }
}
