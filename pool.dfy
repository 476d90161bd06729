// CardPool: the solver's multiset of available cards, kept as a 13 x 4 count
// matrix (rank - 1 by suit position) with a running total.  Two decks mean a
// cell can hold 0, 1 or 2, but the model allows any count.
module Pool {
  import opened Util
  import opened Cards

  /** The card in cell k of the matrix read row by row: rank k / 4 + 1, suit k % 4. */
  function CardAt(k: int): (c: Card)
    requires 0 <= k < 52
  {
    Card(k / 4 + 1, SuitAt(k % 4))
  }

  /** The row-major position of a card's cell. */
  function CardIndex(c: Card): (k: int)
    ensures 0 <= k < 52 && CardAt(k) == c
  {
    (c.rank - 1) * 4 + SuitIndex(c.suit)
  }

  lemma CardAtIndex(k: int)
    requires 0 <= k < 52
    ensures CardIndex(CardAt(k)) == k
  {
  }

  /** Sum of the counts that m gives to the first k cells. */
  ghost function SumFirst(k: int, m: multiset<Card>): int
    requires 0 <= k <= 52
  {
    if k == 0 then 0 else SumFirst(k - 1, m) + m[CardAt(k - 1)]
  }

  lemma {:induction false} SumFirstRemove(k: int, m: multiset<Card>, x: Card)
    requires 0 <= k <= 52 && x in m
    ensures SumFirst(k, m) == SumFirst(k, m - multiset{x}) + (if CardIndex(x) < k then 1 else 0)
  {
    if k > 0 {
      SumFirstRemove(k - 1, m, x);
    }
  }

  /** Summing every cell counts every card once. */
  lemma {:induction false} SumFirstIsSize(m: multiset<Card>)
    ensures SumFirst(52, m) == |m|
    decreases |m|
  {
    if m == multiset{} {
      SumFirstEmpty(52);
    } else {
      var x :| x in m;
      SumFirstRemove(52, m, x);
      SumFirstIsSize(m - multiset{x});
    }
  }

  lemma {:induction false} SumFirstEmpty(k: int)
    requires 0 <= k <= 52
    ensures SumFirst(k, multiset{}) == 0
  {
    if k > 0 {
      SumFirstEmpty(k - 1);
    }
  }

  lemma CancelOne<T>(a: multiset<T>, b: multiset<T>, x: T)
    requires a + multiset{x} <= b + multiset{x}
    ensures a <= b
  {
    forall y ensures a[y] <= b[y] {
      assert (a + multiset{x})[y] <= (b + multiset{x})[y];
    }
  }

  lemma AddThenSubtract<T>(a: multiset<T>, b: multiset<T>)
    ensures (a + b) - b == a
  {
  }

  lemma RemoveStepPre(g: seq<Card>, i: int, before: multiset<Card>)
    requires 0 <= i < |g| && multiset(g[i..]) <= before
    ensures g[i] in before
  {
    assert g[i] in multiset(g[i..]);
  }

  /** One step of removing a group card by card keeps the loop's bookkeeping. */
  lemma RemoveStep(g: seq<Card>, i: int, start: multiset<Card>, before: multiset<Card>, after: multiset<Card>)
    requires 0 <= i < |g| && g[i] in before
    requires start == before + multiset(g[..i]) && multiset(g[i..]) <= before
    requires after == before - multiset{g[i]}
    ensures start == after + multiset(g[..i + 1]) && multiset(g[i + 1..]) <= after
  {
    assert g[i..] == [g[i]] + g[i + 1..];
    assert g[..i + 1] == g[..i] + [g[i]];
    assert before == after + multiset{g[i]};
    CancelOne(multiset(g[i + 1..]), after, g[i]);
  }

  class CardPool {
    const counts: array2<int>
    var total: int
    ghost var Contents: multiset<Card>

    /** Each cell holds the multiplicity of its card, and total is the number of cards. */
    ghost predicate Valid()
      reads this, counts
    {
      counts.Length0 == 13 && counts.Length1 == 4 &&
      (forall r, s :: 0 <= r < 13 && 0 <= s < 4 ==> counts[r, s] == Contents[Card(r + 1, SuitAt(s))]) &&
      total == |Contents|
    }

    constructor ()
      ensures Valid() && Contents == multiset{} && fresh(counts)
    {
      counts := new int[13, 4]((r, s) => 0);
      total := 0;
      Contents := multiset{};
    }

    /** The cell of a card holds its multiplicity. */
    lemma CellOf(c: Card)
      requires Valid()
      ensures counts[c.rank - 1, SuitIndex(c.suit)] == Contents[c]
    {
      assert Card(c.rank - 1 + 1, SuitAt(SuitIndex(c.suit))) == c;
    }

    method Add(c: Card)
      requires Valid()
      modifies this, counts
      ensures Valid() && Contents == old(Contents) + multiset{c}
    {
      var ri, si := c.rank - 1, SuitIndex(c.suit);
      CellOf(c);
      counts[ri, si] := counts[ri, si] + 1;
      total := total + 1;
      Contents := Contents + multiset{c};
    }

    /** Removing a card needs a copy of it to be present. */
    method Remove(c: Card)
      requires Valid() && c in Contents
      modifies this, counts
      ensures Valid() && Contents == old(Contents) - multiset{c}
    {
      var ri, si := c.rank - 1, SuitIndex(c.suit);
      CellOf(c);
      counts[ri, si] := counts[ri, si] - 1;
      total := total - 1;
      Contents := Contents - multiset{c};
    }

    method Get(rank: Rank, suit: Suit) returns (n: int)
      requires Valid()
      ensures n == Contents[Card(rank, suit)]
    {
      CellOf(Card(rank, suit));
      n := counts[rank - 1, SuitIndex(suit)];
    }

    /** The count of a card, read from its cell. */
    function Count(c: Card): (n: int)
      reads this, counts
      requires Valid()
      ensures n == Contents[c]
    {
      CellOf(c);
      counts[c.rank - 1, SuitIndex(c.suit)]
    }

    method IsEmpty() returns (b: bool)
      requires Valid()
      ensures b <==> Contents == multiset{}
    {
      b := total == 0;
    }

    method RemoveGroup(g: seq<Card>)
      requires Valid() && multiset(g) <= Contents
      modifies this, counts
      ensures Valid() && Contents == old(Contents) - multiset(g)
    {
      var i := 0;
      while i < |g|
        invariant 0 <= i <= |g|
        invariant Valid() && old(Contents) == Contents + multiset(g[..i])
        invariant multiset(g[i..]) <= Contents
      {
        ghost var before := Contents;
        RemoveStepPre(g, i, before);
        Remove(g[i]);
        RemoveStep(g, i, old(Contents), before, Contents);
        i := i + 1;
      }
      assert g[..i] == g;
      AddThenSubtract(Contents, multiset(g));
    }

    method AddGroup(g: seq<Card>)
      requires Valid()
      modifies this, counts
      ensures Valid() && Contents == old(Contents) + multiset(g)
    {
      var i := 0;
      while i < |g|
        invariant 0 <= i <= |g|
        invariant Valid() && Contents == old(Contents) + multiset(g[..i])
      {
        assert g[..i + 1] == g[..i] + [g[i]];
        Add(g[i]);
        i := i + 1;
      }
      assert g[..i] == g;
    }

    static method FromCards(cards: seq<Card>) returns (p: CardPool)
      ensures fresh(p) && fresh(p.counts) && p.Valid() && p.Contents == multiset(cards)
    {
      p := new CardPool();
      p.AddGroup(cards);
    }

    /** Sum of the first k cells, read row by row. */
    ghost function CellSum(k: int): int
      requires 0 <= k <= 52 && counts.Length0 == 13 && counts.Length1 == 4
      reads counts
    {
      if k == 0 then 0 else CellSum(k - 1) + counts[(k - 1) / 4, (k - 1) % 4]
    }

    lemma {:induction false} CellSumIsSumFirst(k: int)
      requires Valid() && 0 <= k <= 52
      ensures CellSum(k) == SumFirst(k, Contents)
    {
      if k > 0 {
        CellSumIsSumFirst(k - 1);
        CellOf(CardAt(k - 1));
      }
    }

    /** The running total always equals the sum of the cells. */
    lemma TotalIsCellSum()
      requires Valid()
      ensures total == CellSum(52)
    {
      CellSumIsSumFirst(52);
      SumFirstIsSize(Contents);
    }
  }
}
