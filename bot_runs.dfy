// The bot's run finder: for each suit in the hand, the ranks held are sorted
// and walked block by block; every sub-run of three or more cards of a block
// of consecutive ranks is offered, and when the ace and the king are both held
// so is every run climbing to the king with the ace on top.
module BotRuns {
  import opened Util
  import opened Sorting
  import opened Cards
  import opened Groups
  import Enumerate
  import opened BotFinders

  function RankOf(c: Card): Rank
  {
    c.rank
  }

  function RankKey(r: Rank): int
  {
    r as int
  }

  /** sorted(by_rank.keys()) for one suit's cards. */
  function SuitRanks(cards: seq<Card>): seq<Rank>
  {
    SortBy(KeysInOrder(cards, RankOf), RankKey)
  }

  /** The ranks as a set of integers, for the walk below the king. */
  function Avail(ranks: seq<Rank>): set<int>
  {
    set r | r in ranks :: r as int
  }

  /** The rank after position k is one more than the rank at k. */
  predicate Rises(ranks: seq<Rank>, k: int)
    requires 0 <= k < |ranks| - 1
  {
    ranks[k + 1] as int == ranks[k] as int + 1
  }

  /** Each rank from position start to position end is one more than the one before. */
  ghost predicate Climbs(ranks: seq<Rank>, start: int, end: int)
    requires 0 <= start && end < |ranks|
  {
    forall k :: start <= k < end ==> Rises(ranks, k)
  }

  /** Where the inner while loop stops: the last position of the block of consecutive ranks from j. */
  function BlockEnd(ranks: seq<Rank>, j: int): (e: int)
    requires 0 <= j < |ranks|
    ensures j <= e < |ranks| && Climbs(ranks, j, e)
    ensures e + 1 == |ranks| || !Rises(ranks, e)
    decreases |ranks| - j
  {
    if j + 1 < |ranks| && Rises(ranks, j) then BlockEnd(ranks, j + 1) else j
  }

  /** The cards of the ranks at positions start..end, in order. */
  function RunAt(ranks: seq<Rank>, s: Suit, start: int, end: int): seq<Card>
    requires 0 <= start <= end < |ranks|
  {
    seq(end - start + 1, k requires 0 <= k < end - start + 1 => Card(ranks[start + k], s))
  }

  /** for end in range(start + 2, e): the runs from position start. */
  function EndsUpTo(ranks: seq<Rank>, s: Suit, start: int, e: int): seq<seq<Card>>
    requires 0 <= start && e <= |ranks|
    decreases e
  {
    if e <= start + 2 then [] else EndsUpTo(ranks, s, start, e - 1) + [RunAt(ranks, s, start, e - 1)]
  }

  /** for start in range(i, st): the runs of the block i..j from each start. */
  function StartsUpTo(ranks: seq<Rank>, s: Suit, i: int, st: int, j: int): seq<seq<Card>>
    requires 0 <= i && j < |ranks|
    decreases st - i
  {
    if st <= i then [] else StartsUpTo(ranks, s, i, st - 1, j) + EndsUpTo(ranks, s, st - 1, j + 1)
  }

  /** The sub-runs of the block i..j: only when it holds three ranks or more. */
  function BlockSubRuns(ranks: seq<Rank>, s: Suit, i: int, j: int): seq<seq<Card>>
    requires 0 <= i && j < |ranks|
  {
    if j - i + 1 >= 3 then StartsUpTo(ranks, s, i, j - 1, j) else []
  }

  /** The outer while loop from position i: each block's sub-runs, then the rest. */
  function Walk(ranks: seq<Rank>, s: Suit, i: int): seq<seq<Card>>
    requires 0 <= i <= |ranks|
    decreases |ranks| - i
  {
    if i == |ranks| then []
    else
      var j := BlockEnd(ranks, i);
      BlockSubRuns(ranks, s, i, j) + Walk(ranks, s, j + 1)
  }

  /** for start in range(hi, st): the run start..K with the ace on top. */
  function AceHighFrom(s: Suit, hi: int, st: int): seq<seq<Card>>
    requires 2 <= hi && st <= 13
    decreases st - hi
  {
    if st <= hi then [] else AceHighFrom(s, hi, st - 1) + [AceRunCards(st - 1, s)]
  }

  /** The ace-high runs: only when A and K are held, from the lowest rank reached down from K. */
  function AceHigh(ranks: seq<Rank>, s: Suit): seq<seq<Card>>
  {
    if 1 in ranks && 13 in ranks then AceHighFrom(s, Enumerate.AceLowEnd(13, Avail(ranks)), 13) else []
  }

  /** The runs offered for one suit of the hand. */
  function SuitRuns(hand: seq<Card>, s: Suit): seq<seq<Card>>
  {
    var ranks := SuitRanks(OfKey(hand, CardSuit, s));
    Walk(ranks, s, 0) + AceHigh(ranks, s)
  }

  /** The runs for the listed suits, suit after suit. */
  function RunsFor(hand: seq<Card>, suits: seq<Suit>): seq<seq<Card>>
  {
    if suits == [] then []
    else RunsFor(hand, suits[..|suits| - 1]) + SuitRuns(hand, suits[|suits| - 1])
  }

  /** _find_runs as a value: the suits in order of first appearance in the hand. */
  function Runs(hand: seq<Card>): seq<seq<Card>>
  {
    RunsFor(hand, KeysInOrder(hand, CardSuit))
  }

  // ----- the loops -----

  /** by_rank maps exactly the listed ranks, each to its card of suit s. */
  ghost predicate Keyed(byRank: map<Rank, Card>, ranks: seq<Rank>, s: Suit)
  {
    (forall r :: r in byRank <==> r in ranks) &&
    forall r :: r in byRank ==> byRank[r] == Card(r, s)
  }

  method FindRuns(hand: seq<Card>) returns (runs: seq<seq<Card>>)
    ensures runs == Runs(hand)
  {
    var order, bySuit := GroupBy(hand, CardSuit);
    runs := [];
    for n := 0 to |order|
      invariant runs == RunsFor(hand, order[..n])
    {
      assert order[..n + 1][..n] == order[..n];
      var found := RunsOfSuit(bySuit[order[n]], order[n]);
      runs := runs + found;
    }
    assert order[..|order|] == order;
  }

  /** The body of the loop over by_suit for one suit's cards. */
  method RunsOfSuit(cards: seq<Card>, s: Suit) returns (runs: seq<seq<Card>>)
    requires forall c :: c in cards ==> c.suit == s
    ensures runs == Walk(SuitRanks(cards), s, 0) + AceHigh(SuitRanks(cards), s)
  {
    var keys, byRank := ByRank(cards, s);
    var ranks := SortBy(keys, RankKey);
    SortByFacts(keys, RankKey);
    PermutationMembers(keys, ranks);
    var walked := BlockRuns(ranks, byRank, s);
    var aceHigh := AceRuns(ranks, byRank, s);
    runs := walked + aceHigh;
  }

  /** by_rank[c.rank] = c for each card: the keys in insertion order and the map. */
  method ByRank(cards: seq<Card>, s: Suit) returns (keys: seq<Rank>, byRank: map<Rank, Card>)
    requires forall c :: c in cards ==> c.suit == s
    ensures keys == KeysInOrder(cards, RankOf)
    ensures (forall r :: r in byRank <==> r in keys) && forall r :: r in byRank ==> byRank[r] == Card(r, s)
  {
    keys, byRank := [], map[];
    for i := 0 to |cards|
      invariant keys == KeysInOrder(cards[..i], RankOf)
      invariant forall r :: r in byRank <==> r in keys
      invariant forall r :: r in byRank ==> byRank[r] == Card(r, s)
    {
      var c := cards[i];
      assert cards[..i + 1][..i] == cards[..i];
      if c.rank !in byRank {
        keys := keys + [c.rank];
      }
      byRank := byRank[c.rank := c];
    }
    assert cards[..|cards|] == cards;
  }

  /** The i/j walk over the sorted ranks. */
  method BlockRuns(ranks: seq<Rank>, byRank: map<Rank, Card>, s: Suit) returns (runs: seq<seq<Card>>)
    requires Keyed(byRank, ranks, s)
    ensures runs == Walk(ranks, s, 0)
  {
    runs := [];
    var i := 0;
    ghost var all := Walk(ranks, s, 0);
    while i < |ranks|
      invariant 0 <= i <= |ranks|
      invariant runs + Walk(ranks, s, i) == all
      decreases |ranks| - i
    {
      var j, found := Block(ranks, byRank, s, i);
      Regroup(runs, found, Walk(ranks, s, j + 1), Walk(ranks, s, i), all);
      runs := runs + found;
      i := j + 1;
    }
  }

  /** One pass of the outer loop: the block from i and its sub-runs. */
  method Block(ranks: seq<Rank>, byRank: map<Rank, Card>, s: Suit, i: int) returns (j: int, found: seq<seq<Card>>)
    requires Keyed(byRank, ranks, s) && 0 <= i < |ranks|
    ensures j == BlockEnd(ranks, i)
    ensures Walk(ranks, s, i) == found + Walk(ranks, s, j + 1)
  {
    j := i;
    while j + 1 < |ranks| && ranks[j + 1] as int == ranks[j] as int + 1
      invariant i <= j < |ranks| && BlockEnd(ranks, j) == BlockEnd(ranks, i)
      decreases |ranks| - j
    {
      j := j + 1;
    }
    var seqLen := j - i + 1;
    found := [];
    if seqLen >= 3 {
      found := SubRuns(ranks, byRank, s, i, j);
    }
    WalkUnfold(ranks, s, i, j, found);
  }

  lemma WalkUnfold(ranks: seq<Rank>, s: Suit, i: int, j: int, found: seq<seq<Card>>)
    requires 0 <= i < |ranks| && j == BlockEnd(ranks, i)
    requires found == BlockSubRuns(ranks, s, i, j)
    ensures Walk(ranks, s, i) == found + Walk(ranks, s, j + 1)
  {
  }

  lemma AppendAssoc<T>(a: seq<T>, b: seq<T>, c: seq<T>)
    ensures (a + b) + c == a + (b + c)
  {
  }

  lemma Regroup<T>(a: seq<T>, b: seq<T>, c: seq<T>, bc: seq<T>, abc: seq<T>)
    requires bc == b + c && a + bc == abc
    ensures (a + b) + c == abc
  {
  }

  /** Every sub-run of three or more cards of the block i..j. */
  method SubRuns(ranks: seq<Rank>, byRank: map<Rank, Card>, s: Suit, i: int, j: int) returns (found: seq<seq<Card>>)
    requires Keyed(byRank, ranks, s) && 0 <= i && i + 2 <= j < |ranks|
    ensures found == StartsUpTo(ranks, s, i, j - 1, j)
  {
    found := [];
    for start := i to j - 1
      invariant found == StartsUpTo(ranks, s, i, start, j)
    {
      ghost var before := found;
      for end := start + 2 to j + 1
        invariant found == before + EndsUpTo(ranks, s, start, end)
      {
        var run := seq(end - start + 1, k requires 0 <= k < end - start + 1 => byRank[ranks[start + k]]);
        assert run == RunAt(ranks, s, start, end);
        AppendAssoc(before, EndsUpTo(ranks, s, start, end), [run]);
        found := found + [run];
      }
    }
  }

  /** The ace-high runs, built from by_rank. */
  method AceRuns(ranks: seq<Rank>, byRank: map<Rank, Card>, s: Suit) returns (runs: seq<seq<Card>>)
    requires Keyed(byRank, ranks, s)
    ensures runs == AceHigh(ranks, s)
  {
    runs := [];
    if 1 in byRank && 13 in byRank {
      var hi := 13;
      while hi - 1 >= 2 && (hi - 1) in byRank
        invariant 2 <= hi <= 13
        invariant Enumerate.AceLowEnd(hi, Avail(ranks)) == Enumerate.AceLowEnd(13, Avail(ranks))
        decreases hi
      {
        assert hi - 1 in Avail(ranks);
        hi := hi - 1;
      }
      assert hi == Enumerate.AceLowEnd(13, Avail(ranks));
      for start := hi to 13
        invariant runs == AceHighFrom(s, hi, start)
      {
        if 13 - start + 1 >= 2 {
          ClimbHeld(ranks, byRank, s, hi, start);
          var climb := seq(14 - start, k requires 0 <= k < 14 - start => byRank[start + k]);
          var run := climb + [byRank[1]];
          AceRunGathered(byRank, s, start, climb, run);
          if |run| >= 3 {
            runs := runs + [run];
          }
        }
      }
    }
  }

  /** The cards gathered from by_rank for one start are that start's ace-high run. */
  lemma AceRunGathered(byRank: map<Rank, Card>, s: Suit, start: int, climb: seq<Card>, run: seq<Card>)
    requires 2 <= start <= 12 && 1 in byRank && byRank[1] == Card(1, s)
    requires forall r: Rank :: start <= r <= 13 ==> r in byRank && byRank[r] == Card(r, s)
    requires |climb| == 14 - start && forall k :: 0 <= k < 14 - start ==> climb[k] == byRank[start + k]
    requires run == climb + [byRank[1]]
    ensures run == AceRunCards(start, s) && |run| >= 3
  {
    assert climb == RunCards(start, 13, s);
  }

  /** From the lowest rank reached below the king, every rank up to the king is in by_rank. */
  lemma ClimbHeld(ranks: seq<Rank>, byRank: map<Rank, Card>, s: Suit, hi: int, start: int)
    requires Keyed(byRank, ranks, s) && 13 in ranks
    requires 2 <= hi <= start <= 13 && forall k :: hi <= k < 13 ==> k in Avail(ranks)
    ensures forall r: Rank :: start <= r <= 13 ==> r in byRank && byRank[r] == Card(r, s)
  {
    forall r: Rank | start <= r <= 13 ensures r in ranks {
      if r < 13 {
        assert r as int in Avail(ranks);
      }
    }
  }

  // ----- what the walk offers -----

  /** g is the run a..b of one suit, three cards or more, and the hand holds every card of it. */
  ghost predicate HeldStraight(g: seq<Card>, hand: seq<Card>)
  {
    exists a, b, s :: 1 <= a && a + 2 <= b <= 13 && g == RunCards(a, b, s) &&
      forall r: Rank :: a <= r <= b ==> Card(r, s) in hand
  }

  /** g is the run a..K of one suit topped by the ace, and the hand holds every card of it. */
  ghost predicate HeldAceHigh(g: seq<Card>, hand: seq<Card>)
  {
    exists a, s :: 2 <= a <= 12 && g == AceRunCards(a, s) && Card(1, s) in hand &&
      forall r: Rank :: a <= r <= 13 ==> Card(r, s) in hand
  }

  lemma {:induction false} ClimbValue(ranks: seq<Rank>, start: int, end: int, m: int)
    requires 0 <= start && end < |ranks| && Climbs(ranks, start, end) && 0 <= m <= end - start
    ensures ranks[start + m] as int == ranks[start] as int + m
  {
    if m > 0 {
      ClimbValue(ranks, start, end, m - 1);
      assert Rises(ranks, start + m - 1);
    }
  }

  /** The cards at climbing positions start..end are the run between their ranks. */
  lemma RunAtIsRun(ranks: seq<Rank>, s: Suit, start: int, end: int)
    requires 0 <= start <= end < |ranks| && Climbs(ranks, start, end)
    ensures ranks[end] as int == ranks[start] as int + (end - start)
    ensures RunAt(ranks, s, start, end) == RunCards(ranks[start] as int, ranks[end] as int, s)
  {
    ClimbValue(ranks, start, end, end - start);
    var g, h := RunAt(ranks, s, start, end), RunCards(ranks[start] as int, ranks[end] as int, s);
    forall k | 0 <= k < |g| ensures g[k] == h[k] {
      ClimbValue(ranks, start, end, k);
    }
  }

  lemma {:induction false} EndsMember(ranks: seq<Rank>, s: Suit, start: int, e: int, g: seq<Card>) returns (end: int)
    requires 0 <= start && e <= |ranks| && g in EndsUpTo(ranks, s, start, e)
    ensures start + 2 <= end < e && g == RunAt(ranks, s, start, end)
    decreases e
  {
    if g == RunAt(ranks, s, start, e - 1) {
      end := e - 1;
    } else {
      end := EndsMember(ranks, s, start, e - 1, g);
    }
  }

  lemma {:induction false} StartsMember(ranks: seq<Rank>, s: Suit, i: int, st: int, j: int, g: seq<Card>) returns (start: int, end: int)
    requires 0 <= i && j < |ranks| && g in StartsUpTo(ranks, s, i, st, j)
    ensures i <= start < st && start + 2 <= end <= j && g == RunAt(ranks, s, start, end)
    decreases st - i
  {
    if g in StartsUpTo(ranks, s, i, st - 1, j) {
      start, end := StartsMember(ranks, s, i, st - 1, j, g);
    } else {
      start := st - 1;
      end := EndsMember(ranks, s, st - 1, j + 1, g);
    }
  }

  /** Every list of the walk is the cards of climbing positions, three or more. */
  lemma {:induction false} WalkMember(ranks: seq<Rank>, s: Suit, i: int, g: seq<Card>) returns (start: int, end: int)
    requires 0 <= i <= |ranks| && g in Walk(ranks, s, i)
    ensures i <= start && start + 2 <= end < |ranks| && Climbs(ranks, start, end)
    ensures g == RunAt(ranks, s, start, end)
    decreases |ranks| - i
  {
    var j, later := WalkSplit(ranks, s, i, g);
    if later {
      start, end := WalkMember(ranks, s, j + 1, g);
    } else {
      start, end := BlockMember(ranks, s, i, j, g);
    }
  }

  /** A list of the walk from i is in the first block's sub-runs or in the walk after it. */
  lemma WalkSplit(ranks: seq<Rank>, s: Suit, i: int, g: seq<Card>) returns (j: int, later: bool)
    requires 0 <= i <= |ranks| && g in Walk(ranks, s, i)
    ensures i < |ranks| && j == BlockEnd(ranks, i)
    ensures later ==> g in Walk(ranks, s, j + 1)
    ensures !later ==> g in BlockSubRuns(ranks, s, i, j)
  {
    j := BlockEnd(ranks, i);
    WalkUnfold(ranks, s, i, j, BlockSubRuns(ranks, s, i, j));
    InConcat(BlockSubRuns(ranks, s, i, j), Walk(ranks, s, j + 1), g);
    later := g !in BlockSubRuns(ranks, s, i, j);
  }

  lemma InConcat<T>(a: seq<T>, b: seq<T>, x: T)
    ensures x in a + b <==> x in a || x in b
  {
  }

  /** A list of one block's sub-runs is the cards of a climbing stretch inside the block. */
  lemma BlockMember(ranks: seq<Rank>, s: Suit, i: int, j: int, g: seq<Card>) returns (start: int, end: int)
    requires 0 <= i < |ranks| && j == BlockEnd(ranks, i)
    requires g in BlockSubRuns(ranks, s, i, j)
    ensures i <= start && start + 2 <= end <= j && Climbs(ranks, start, end)
    ensures g == RunAt(ranks, s, start, end)
  {
    start, end := StartsMember(ranks, s, i, j - 1, j, g);
  }

  lemma {:induction false} EndsContain(ranks: seq<Rank>, s: Suit, start: int, e: int, end: int)
    requires 0 <= start && start + 2 <= end < e <= |ranks|
    ensures RunAt(ranks, s, start, end) in EndsUpTo(ranks, s, start, e)
    decreases e
  {
    if end < e - 1 {
      EndsContain(ranks, s, start, e - 1, end);
    }
  }

  lemma {:induction false} StartsContain(ranks: seq<Rank>, s: Suit, i: int, st: int, j: int, start: int, end: int)
    requires 0 <= i <= start < st && start + 2 <= end <= j < |ranks|
    ensures RunAt(ranks, s, start, end) in StartsUpTo(ranks, s, i, st, j)
    decreases st - i
  {
    if start < st - 1 {
      StartsContain(ranks, s, i, st - 1, j, start, end);
    } else {
      EndsContain(ranks, s, start, j + 1, end);
    }
  }

  /** A climbing stretch that starts inside a block ends inside it. */
  lemma BlockCovers(ranks: seq<Rank>, i: int, start: int, end: int)
    requires 0 <= i <= start <= end < |ranks| && Climbs(ranks, start, end)
    requires start <= BlockEnd(ranks, i)
    ensures end <= BlockEnd(ranks, i)
  {
  }

  /** The walk offers the cards of every climbing stretch of three or more positions. */
  lemma {:induction false} WalkContains(ranks: seq<Rank>, s: Suit, i: int, start: int, end: int)
    requires 0 <= i <= start && start + 2 <= end < |ranks| && Climbs(ranks, start, end)
    ensures RunAt(ranks, s, start, end) in Walk(ranks, s, i)
    decreases |ranks| - i, 1
  {
    if start <= BlockEnd(ranks, i) {
      WalkContainsHere(ranks, s, i, start, end);
    } else {
      WalkContainsLater(ranks, s, i, start, end);
    }
  }

  /** WalkContains when the stretch starts in the first block. */
  lemma WalkContainsHere(ranks: seq<Rank>, s: Suit, i: int, start: int, end: int)
    requires 0 <= i <= start && start + 2 <= end < |ranks| && Climbs(ranks, start, end)
    requires start <= BlockEnd(ranks, i)
    ensures RunAt(ranks, s, start, end) in Walk(ranks, s, i)
  {
    var j := BlockEnd(ranks, i);
    BlockCovers(ranks, i, start, end);
    StartsContain(ranks, s, i, j - 1, j, start, end);
    WalkFromBlock(ranks, s, i, j, RunAt(ranks, s, start, end));
  }

  /** WalkContains when the stretch starts after the first block. */
  lemma {:induction false} WalkContainsLater(ranks: seq<Rank>, s: Suit, i: int, start: int, end: int)
    requires 0 <= i <= start && start + 2 <= end < |ranks| && Climbs(ranks, start, end)
    requires start > BlockEnd(ranks, i)
    ensures RunAt(ranks, s, start, end) in Walk(ranks, s, i)
    decreases |ranks| - i, 0
  {
    var j := BlockEnd(ranks, i);
    WalkContains(ranks, s, j + 1, start, end);
    WalkFromRest(ranks, s, i, j, RunAt(ranks, s, start, end));
  }

  /** A sub-run of the first block is in the walk. */
  lemma WalkFromBlock(ranks: seq<Rank>, s: Suit, i: int, j: int, g: seq<Card>)
    requires 0 <= i && i + 2 <= j < |ranks| && j == BlockEnd(ranks, i)
    requires g in StartsUpTo(ranks, s, i, j - 1, j)
    ensures g in Walk(ranks, s, i)
  {
    WalkUnfold(ranks, s, i, j, BlockSubRuns(ranks, s, i, j));
    InConcat(BlockSubRuns(ranks, s, i, j), Walk(ranks, s, j + 1), g);
  }

  /** A list of the walk after the first block is in the walk. */
  lemma WalkFromRest(ranks: seq<Rank>, s: Suit, i: int, j: int, g: seq<Card>)
    requires 0 <= i < |ranks| && j == BlockEnd(ranks, i)
    requires g in Walk(ranks, s, j + 1)
    ensures g in Walk(ranks, s, i)
  {
    WalkUnfold(ranks, s, i, j, BlockSubRuns(ranks, s, i, j));
    InConcat(BlockSubRuns(ranks, s, i, j), Walk(ranks, s, j + 1), g);
  }

  lemma {:induction false} AceHighMember(s: Suit, hi: int, st: int, g: seq<Card>) returns (a: int)
    requires 2 <= hi && st <= 13 && g in AceHighFrom(s, hi, st)
    ensures hi <= a < st && g == AceRunCards(a, s)
    decreases st - hi
  {
    if g == AceRunCards(st - 1, s) {
      a := st - 1;
    } else {
      a := AceHighMember(s, hi, st - 1, g);
    }
  }

  lemma {:induction false} AceHighContains(s: Suit, hi: int, st: int, a: int)
    requires 2 <= hi <= a < st <= 13
    ensures AceRunCards(a, s) in AceHighFrom(s, hi, st)
    decreases st - hi
  {
    if a < st - 1 {
      AceHighContains(s, hi, st - 1, a);
    }
  }

  // ----- the ranks of one suit -----

  /** A rank is listed for a suit exactly when the hand holds that card. */
  lemma SuitRanksHeld(hand: seq<Card>, s: Suit, r: Rank)
    ensures r in SuitRanks(OfKey(hand, CardSuit, s)) <==> Card(r, s) in hand
  {
    var cards := OfKey(hand, CardSuit, s);
    RanksOfSuitCards(cards, s, r);
    if Card(r, s) in hand {
      assert Card(r, s) in cards;
    }
  }

  /** For cards of one suit, a rank is listed exactly when its card is among them. */
  lemma RanksOfSuitCards(cards: seq<Card>, s: Suit, r: Rank)
    requires forall c :: c in cards ==> c.suit == s
    ensures r in SuitRanks(cards) <==> Card(r, s) in cards
  {
    var ks := KeysInOrder(cards, RankOf);
    SortByFacts(ks, RankKey);
    PermutationMembers(ks, SuitRanks(cards));
    if r in ks {
      var c := OfKey(cards, RankOf, r)[0];
      assert c in OfKey(cards, RankOf, r);
    }
  }

  /** sorted() of distinct ranks is strictly increasing. */
  lemma SuitRanksIncrease(cards: seq<Card>)
    ensures forall p, q :: 0 <= p < q < |SuitRanks(cards)| ==> SuitRanks(cards)[p] < SuitRanks(cards)[q]
  {
    var ks := KeysInOrder(cards, RankOf);
    var ranks := SuitRanks(cards);
    SortByFacts(ks, RankKey);
    NoDupPermutation(ks, ranks);
    forall p, q | 0 <= p < q < |ranks| ensures ranks[p] < ranks[q] {
      assert RankKey(ranks[p]) <= RankKey(ranks[q]);
    }
  }

  /** In strictly increasing ranks holding all of a..b, a..b sit at climbing positions. */
  lemma {:induction false} Locate(ranks: seq<Rank>, a: int, b: int) returns (p: int)
    requires forall x, y :: 0 <= x < y < |ranks| ==> ranks[x] < ranks[y]
    requires a <= b && forall r :: a <= r <= b ==> r in Avail(ranks)
    ensures 0 <= p && p + (b - a) < |ranks| && ranks[p] as int == a && Climbs(ranks, p, p + (b - a))
    decreases b - a
  {
    if b == a {
      assert a in Avail(ranks);
      var x :| 0 <= x < |ranks| && ranks[x] as int == a;
      p := x;
    } else {
      p := Locate(ranks, a, b - 1);
      var top := p + (b - 1 - a);
      ClimbValue(ranks, p, top, top - p);
      assert b in Avail(ranks);
      var q :| 0 <= q < |ranks| && ranks[q] as int == b;
      assert q > top;
      assert ranks[top + 1] <= ranks[q];
      assert Rises(ranks, top);
    }
  }

  // ----- _find_runs offers exactly the held runs -----

  lemma {:induction false} RunsForMember(hand: seq<Card>, suits: seq<Suit>, g: seq<Card>) returns (s: Suit)
    requires g in RunsFor(hand, suits)
    ensures s in suits && g in SuitRuns(hand, s)
  {
    var init := suits[..|suits| - 1];
    if g in RunsFor(hand, init) {
      s := RunsForMember(hand, init, g);
    } else {
      s := suits[|suits| - 1];
    }
  }

  lemma {:induction false} RunsForContain(hand: seq<Card>, suits: seq<Suit>, s: Suit, g: seq<Card>)
    requires s in suits && g in SuitRuns(hand, s)
    ensures g in RunsFor(hand, suits)
  {
    var init := suits[..|suits| - 1];
    if s != suits[|suits| - 1] {
      assert s in init;
      RunsForContain(hand, init, s, g);
    }
  }

  /** A list of the walk over a suit's ranks is a held straight run. */
  lemma WalkHeld(hand: seq<Card>, s: Suit, g: seq<Card>)
    requires g in Walk(SuitRanks(OfKey(hand, CardSuit, s)), s, 0)
    ensures HeldStraight(g, hand)
  {
    var ranks := SuitRanks(OfKey(hand, CardSuit, s));
    var start, end := WalkMember(ranks, s, 0, g);
    RunAtIsRun(ranks, s, start, end);
    StretchHeld(hand, s, start, end);
  }

  /** The hand holds every card of the ranks at climbing positions start..end. */
  lemma StretchHeld(hand: seq<Card>, s: Suit, start: int, end: int)
    requires 0 <= start <= end < |SuitRanks(OfKey(hand, CardSuit, s))|
    requires Climbs(SuitRanks(OfKey(hand, CardSuit, s)), start, end)
    ensures var ranks := SuitRanks(OfKey(hand, CardSuit, s));
      forall r: Rank :: ranks[start] <= r <= ranks[end] ==> Card(r, s) in hand
  {
    var ranks := SuitRanks(OfKey(hand, CardSuit, s));
    RunAtIsRun(ranks, s, start, end);
    forall r: Rank | ranks[start] <= r <= ranks[end] ensures Card(r, s) in hand {
      ClimbValue(ranks, start, end, r - ranks[start]);
      SuitRanksHeld(hand, s, ranks[start + (r - ranks[start])]);
    }
  }

  /** A list of the ace-high part for a suit is a held ace-high run. */
  lemma AceHighHeld(hand: seq<Card>, s: Suit, g: seq<Card>)
    requires g in AceHigh(SuitRanks(OfKey(hand, CardSuit, s)), s)
    ensures HeldAceHigh(g, hand)
  {
    var ranks := SuitRanks(OfKey(hand, CardSuit, s));
    var hi := Enumerate.AceLowEnd(13, Avail(ranks));
    var a := AceHighMember(s, hi, 13, g);
    SuitRanksHeld(hand, s, 1);
    ClimbToKingHeld(hand, s, a);
  }

  /** From the lowest rank reached below the king, the hand holds every card up to the king. */
  lemma ClimbToKingHeld(hand: seq<Card>, s: Suit, a: int)
    requires 13 in SuitRanks(OfKey(hand, CardSuit, s))
    requires Enumerate.AceLowEnd(13, Avail(SuitRanks(OfKey(hand, CardSuit, s)))) <= a
    ensures forall r: Rank :: a <= r <= 13 ==> Card(r, s) in hand
  {
    var ranks := SuitRanks(OfKey(hand, CardSuit, s));
    forall r: Rank | a <= r <= 13 ensures Card(r, s) in hand {
      if r < 13 {
        assert r as int in Avail(ranks);
      }
      SuitRanksHeld(hand, s, r);
    }
  }

  /** A list offered for one suit is a held straight run or a held ace-high run. */
  lemma SuitRunsSound(hand: seq<Card>, s: Suit, g: seq<Card>)
    requires g in SuitRuns(hand, s)
    ensures HeldStraight(g, hand) || HeldAceHigh(g, hand)
  {
    var ranks := SuitRanks(OfKey(hand, CardSuit, s));
    if g in Walk(ranks, s, 0) {
      WalkHeld(hand, s, g);
    } else {
      AceHighHeld(hand, s, g);
    }
  }

  /** Every list _find_runs offers is a run the hand holds: a..b of one suit, or a..K and the ace. */
  lemma RunsSound(hand: seq<Card>, g: seq<Card>)
    requires g in Runs(hand)
    ensures HeldStraight(g, hand) || HeldAceHigh(g, hand)
  {
    var s := RunsForMember(hand, KeysInOrder(hand, CardSuit), g);
    SuitRunsSound(hand, s, g);
  }

  /** Every held run a..b of three or more cards is offered. */
  lemma StraightOffered(hand: seq<Card>, a: int, b: int, s: Suit)
    requires 1 <= a && a + 2 <= b <= 13 && forall r: Rank :: a <= r <= b ==> Card(r, s) in hand
    ensures RunCards(a, b, s) in Runs(hand)
  {
    var ranks := SuitRanks(OfKey(hand, CardSuit, s));
    forall r | a <= r <= b ensures r in Avail(ranks) {
      SuitRanksHeld(hand, s, r as Rank);
    }
    SuitRanksIncrease(OfKey(hand, CardSuit, s));
    var p := Locate(ranks, a, b);
    RunAtIsRun(ranks, s, p, p + (b - a));
    WalkContains(ranks, s, 0, p, p + (b - a));
    assert Card(a, s) in hand;
    RunsForContain(hand, KeysInOrder(hand, CardSuit), s, RunCards(a, b, s));
  }

  /** Every held run a..K with the ace on top is offered. */
  lemma AceHighOffered(hand: seq<Card>, a: int, s: Suit)
    requires 2 <= a <= 12 && Card(1, s) in hand && forall r: Rank :: a <= r <= 13 ==> Card(r, s) in hand
    ensures AceRunCards(a, s) in Runs(hand)
  {
    var ranks := SuitRanks(OfKey(hand, CardSuit, s));
    SuitRanksHeld(hand, s, 1);
    SuitRanksHeld(hand, s, 13);
    forall k | a <= k < 13 ensures k in Avail(ranks) {
      SuitRanksHeld(hand, s, k as Rank);
    }
    Enumerate.AceLowEndReaches(13, Avail(ranks), a);
    AceHighContains(s, Enumerate.AceLowEnd(13, Avail(ranks)), 13, a);
    assert Card(1, s) in hand;
    RunsForContain(hand, KeysInOrder(hand, CardSuit), s, AceRunCards(a, s));
  }

  /** _find_runs offers exactly the held runs: straight ones of three or more cards and ace-high ones. */
  lemma RunsExact(hand: seq<Card>, g: seq<Card>)
    ensures g in Runs(hand) <==> HeldStraight(g, hand) || HeldAceHigh(g, hand)
  {
    if g in Runs(hand) {
      RunsSound(hand, g);
    }
    if HeldStraight(g, hand) {
      var a, b, s :| 1 <= a && a + 2 <= b <= 13 && g == RunCards(a, b, s) &&
        forall r: Rank :: a <= r <= b ==> Card(r, s) in hand;
      StraightOffered(hand, a, b, s);
    }
    if HeldAceHigh(g, hand) {
      var a, s :| 2 <= a <= 12 && g == AceRunCards(a, s) && Card(1, s) in hand &&
        forall r: Rank :: a <= r <= 13 ==> Card(r, s) in hand;
      AceHighOffered(hand, a, s);
    }
  }

  /** Every list _find_runs offers is a valid run of distinct cards from the hand. */
  lemma RunsValid(hand: seq<Card>, g: seq<Card>)
    requires g in Runs(hand)
    ensures IsValidRun(g) && NoDup(g) && multiset(g) <= multiset(hand)
  {
    RunsSound(hand, g);
    if HeldStraight(g, hand) {
      var a, b, s :| 1 <= a && a + 2 <= b <= 13 && g == RunCards(a, b, s) &&
        forall r: Rank :: a <= r <= b ==> Card(r, s) in hand;
      RunCardsValid(a, b, s);
    } else {
      var a, s :| 2 <= a <= 12 && g == AceRunCards(a, s) && Card(1, s) in hand &&
        forall r: Rank :: a <= r <= 13 ==> Card(r, s) in hand;
      AceRunCardsValid(a, s);
    }
    RunDistinct(g);
    FromHand(g, hand);
  }
}
