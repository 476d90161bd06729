// The partition solver: split a multiset of cards into valid groups.  The
// wall-clock deadlines of the original become a budget of ticks: each
// non-trivial call of Solve spends one, and a search that runs out returns
// what a timed-out search returns.
module Solver {
  import opened Util
  import opened Sorting
  import opened Cards
  import opened Groups
  import opened Pool
  import opened Enumerate

  predicate AllValid(groups: seq<seq<Card>>)
  {
    forall i :: 0 <= i < |groups| ==> IsValidGroup(groups[i])
  }

  /** The groups are all valid and hold exactly the cards of P. */
  predicate IsPartition(groups: seq<seq<Card>>, P: multiset<Card>)
  {
    AllValid(groups) && Bag(groups) == P
  }

  ghost predicate Partitionable(P: multiset<Card>)
  {
    exists groups :: IsPartition(groups, P)
  }

  lemma ValidGroupSize(g: seq<Card>)
    requires IsValidGroup(g)
    ensures |g| >= 3
  {
  }

  /** A valid group on top of a partition of the rest partitions the whole. */
  lemma PartitionCons(g: seq<Card>, r: seq<seq<Card>>, P: multiset<Card>)
    requires IsValidGroup(g) && multiset(g) <= P && IsPartition(r, P - multiset(g))
    ensures IsPartition([g] + r, P)
  {
    BagCons(g, r);
    var u := [g] + r;
    forall i | 0 <= i < |u| ensures IsValidGroup(u[i]) {
      if i > 0 {
        assert u[i] == r[i - 1];
      }
    }
  }

  /** Taking a group out of a partition leaves a partition of the rest. */
  lemma PartitionRemoveAt(groups: seq<seq<Card>>, P: multiset<Card>, k: int)
    requires IsPartition(groups, P) && 0 <= k < |groups|
    ensures multiset(groups[k]) <= P
    ensures IsPartition(groups[..k] + groups[k + 1..], P - multiset(groups[k]))
  {
    BagRemoveAt(groups, k);
    var rest := groups[..k] + groups[k + 1..];
    forall i | 0 <= i < |rest| ensures IsValidGroup(rest[i]) {
      if i < k {
        assert rest[i] == groups[i];
      } else {
        assert rest[i] == groups[i + 1];
      }
    }
  }

  /** In a partition of P, every card of P sits in some candidate group of _groups_for. */
  lemma PartitionHasCandidate(groups: seq<seq<Card>>, P: multiset<Card>, c: Card) returns (h: seq<Card>)
    requires IsPartition(groups, P) && c in P
    ensures h in GroupsFor(c, P) && Partitionable(P - multiset(h))
  {
    var k := BagMember(groups, c);
    PartitionRemoveAt(groups, P, k);
    h := GroupsForComplete(c, P, groups[k]);
    assert IsPartition(groups[..k] + groups[k + 1..], P - multiset(h));
  }

  /** So a card with no candidate group rules out every partition (solve's dead-end return). */
  lemma PartitionHasNoDeadCard(groups: seq<seq<Card>>, P: multiset<Card>, c: Card)
    requires IsPartition(groups, P) && c in P
    ensures GroupsFor(c, P) != []
  {
    var h := PartitionHasCandidate(groups, P, c);
  }

  /** Every group of a partition has 3 or more cards, so a non-empty partitioned multiset has at least 3. */
  lemma PartitionSize(groups: seq<seq<Card>>, P: multiset<Card>)
    requires IsPartition(groups, P) && P != multiset{}
    ensures |P| >= 3
  {
    var c :| c in P;
    var k := BagMember(groups, c);
    PartitionRemoveAt(groups, P, k);
    ValidGroupSize(groups[k]);
    assert P == multiset(groups[k]) + (P - multiset(groups[k]));
  }

  /** Hence solve's early None for 1 or 2 cards loses no solution. */
  lemma SmallPoolNotPartitionable(P: multiset<Card>)
    requires 0 < |P| < 3
    ensures !Partitionable(P)
  {
    forall groups ensures !IsPartition(groups, P) {
      if IsPartition(groups, P) {
        PartitionSize(groups, P);
      }
    }
  }

  /**
   * The backtracking step is complete: if no candidate group of c leaves a
   * partitionable rest, P has no partition.
   */
  lemma NoPartitionByBranching(c: Card, P: multiset<Card>)
    requires c in P
    requires forall g :: g in GroupsFor(c, P) ==> !Partitionable(P - multiset(g))
    ensures !Partitionable(P)
  {
    if Partitionable(P) {
      var groups :| IsPartition(groups, P);
      var h := PartitionHasCandidate(groups, P, c);
      assert false;
    }
  }

  lemma PutBack(P: multiset<Card>, g: seq<Card>)
    requires multiset(g) <= P
    ensures (P - multiset(g)) + multiset(g) == P && |P - multiset(g)| == |P| - |g|
  {
    assert P == (P - multiset(g)) + multiset(g);
  }

  /** A candidate group of a present card can be taken out of P, and shrinks it. */
  lemma CandidateFits(c: Card, P: multiset<Card>, g: seq<Card>)
    requires c in P && g in GroupsFor(c, P)
    ensures multiset(g) <= P && |P - multiset(g)| < |P|
    ensures (P - multiset(g)) + multiset(g) == P
  {
    GroupsForSound(c, P, g);
    PutBack(P, g);
  }

  /** A candidate group followed by a partition of the rest partitions P. */
  lemma CandidateThenPartition(c: Card, P: multiset<Card>, g: seq<Card>, r: seq<seq<Card>>)
    requires c in P && g in GroupsFor(c, P) && IsPartition(r, P - multiset(g))
    ensures IsPartition([g] + r, P)
  {
    GroupsForSound(c, P, g);
    PartitionCons(g, r, P);
  }

  lemma ExtendFailures(P: multiset<Card>, groups: seq<seq<Card>>, i: int)
    requires 0 <= i < |groups|
    requires forall j :: 0 <= j < i ==> !Partitionable(P - multiset(groups[j]))
    requires !Partitionable(P - multiset(groups[i]))
    ensures forall j :: 0 <= j < i + 1 ==> !Partitionable(P - multiset(groups[j]))
  {
  }

  /** NoPartitionByBranching, with the candidates listed in order. */
  lemma AllBranchesFail(c: Card, P: multiset<Card>, groups: seq<seq<Card>>)
    requires c in P && groups == GroupsFor(c, P)
    requires forall j :: 0 <= j < |groups| ==> !Partitionable(P - multiset(groups[j]))
    ensures !Partitionable(P)
  {
    NoPartitionByBranching(c, P);
  }

  /**
   * The scan for the most-constrained card: cells in rank-major, SUITS order;
   * stop at the first present card with no candidate group (dead) or with
   * exactly one; otherwise keep the first card with the fewest candidates.
   */
  method MostConstrained(pool: CardPool) returns (dead: bool, best: Card, groups: seq<seq<Card>>)
    requires pool.Valid() && pool.Contents != multiset{}
    ensures best in pool.Contents && groups == GroupsFor(best, pool.Contents)
    ensures dead <==> groups == []
  {
    ghost var P := pool.Contents;
    dead, best, groups := false, Card(1, Spades), [];
    var found := false;
    var k := 0;
    while k < 52
      invariant 0 <= k <= 52
      invariant found ==> best in P && groups == GroupsFor(best, P) && groups != []
      invariant !found ==> forall j :: 0 <= j < k ==> CardAt(j) !in P
    {
      var c := CardAt(k);
      var n := pool.Get(c.rank, c.suit);
      if n > 0 {
        var gs := GroupsForIn(c, pool);
        if gs == [] {
          return true, c, gs;
        }
        if !found || |gs| < |groups| {
          found, best, groups := true, c, gs;
          if |gs| == 1 {
            return;
          }
        }
      }
      k := k + 1;
    }
    if !found {
      NoCellMeansEmpty(P);
      assert false;
    }
  }

  lemma NoCellMeansEmpty(P: multiset<Card>)
    requires forall j :: 0 <= j < 52 ==> CardAt(j) !in P
    ensures P == multiset{}
  {
    if P != multiset{} {
      var c :| c in P;
      var k := CardIndex(c);
      assert false;
    }
  }

  /**
   * solve: partition the pool's cards, leaving the pool as it found it.  A
   * result is a partition; an empty pool gives no groups; a pool of 1 or 2
   * cards gives none; and a failure with budget to spare means the pool
   * cannot be partitioned at all.
   */
  method Solve(pool: CardPool, budget: nat) returns (result: Option<seq<seq<Card>>>, left: nat)
    requires pool.Valid()
    modifies pool, pool.counts
    decreases pool.total
    ensures pool.Valid() && pool.Contents == old(pool.Contents)
    ensures left <= budget
    ensures result.Some? ==> IsPartition(result.value, old(pool.Contents))
    ensures old(pool.Contents) == multiset{} ==> result == Some([])
    ensures 0 < |old(pool.Contents)| < 3 ==> result == None
    ensures result == None && left > 0 ==> !Partitionable(old(pool.Contents))
  {
    var empty := pool.IsEmpty();
    if empty {
      return Some([]), budget;
    }
    if pool.total < 3 {
      SmallPoolNotPartitionable(pool.Contents);
      return None, budget;
    }
    if budget == 0 {
      return None, 0;
    }
    left := budget - 1;
    ghost var P := pool.Contents;
    var dead, best, groups := MostConstrained(pool);
    if dead {
      NoPartitionByBranching(best, P);
      return None, left;
    }
    var i := 0;
    while i < |groups|
      invariant 0 <= i <= |groups|
      invariant pool.Valid() && pool.Contents == P
      invariant left < budget
      invariant left > 0 ==> forall j :: 0 <= j < i ==> !Partitionable(P - multiset(groups[j]))
    {
      var g := groups[i];
      CandidateFits(best, P, g);
      pool.RemoveGroup(g);
      var sub, subLeft := Solve(pool, left);
      pool.AddGroup(g);
      if sub.Some? {
        CandidateThenPartition(best, P, g, sub.value);
        return Some([g] + sub.value), subLeft;
      }
      if subLeft > 0 {
        assert !Partitionable(P - multiset(g));
        ExtendFailures(P, groups, i);
      }
      left := subLeft;
      i := i + 1;
    }
    if left > 0 {
      AllBranchesFail(best, P, groups);
    }
    result := None;
  }

  // ----- verify_solution -----

  datatype Verdict = Valid | InvalidGroup(group: seq<Card>) | CountsMismatch

  /**
   * verify_solution: the first invalid group is reported first, then a count
   * mismatch; Valid exactly when the groups partition the cards.
   */
  method VerifySolution(cards: seq<Card>, groups: seq<seq<Card>>) returns (v: Verdict)
    ensures v == Valid <==> IsPartition(groups, multiset(cards))
    ensures v.InvalidGroup? <==> !AllValid(groups)
    ensures v.InvalidGroup? ==>
      exists i :: 0 <= i < |groups| && groups[i] == v.group && !IsValidGroup(groups[i]) && AllValid(groups[..i])
    ensures v == CountsMismatch <==> AllValid(groups) && Bag(groups) != multiset(cards)
  {
    var i := 0;
    while i < |groups|
      invariant 0 <= i <= |groups| && AllValid(groups[..i])
    {
      if !IsValidGroup(groups[i]) {
        return InvalidGroup(groups[i]);
      }
      assert groups[..i + 1] == groups[..i] + [groups[i]];
      i := i + 1;
    }
    assert groups[..i] == groups;
    var groupCounts := GroupCounts(groups);
    var cardCounts := CardCounts(cards);
    if groupCounts != cardCounts {
      return CountsMismatch;
    }
    return Valid;
  }

  /** The Counter of every card of every group. */
  method GroupCounts(groups: seq<seq<Card>>) returns (counts: multiset<Card>)
    ensures counts == Bag(groups)
  {
    counts := multiset{};
    var i := 0;
    while i < |groups|
      invariant 0 <= i <= |groups| && counts == Bag(groups[..i])
    {
      assert groups[..i + 1][..i] == groups[..i];
      counts := counts + multiset(groups[i]);
      i := i + 1;
    }
    assert groups[..i] == groups;
  }

  /** The Counter of a list of cards. */
  method CardCounts(cards: seq<Card>) returns (counts: multiset<Card>)
    ensures counts == multiset(cards)
  {
    counts := multiset{};
    var i := 0;
    while i < |cards|
      invariant 0 <= i <= |cards| && counts == multiset(cards[..i])
    {
      assert cards[..i + 1] == cards[..i] + [cards[i]];
      counts := counts + multiset{cards[i]};
      i := i + 1;
    }
    assert cards[..i] == cards;
  }
}
