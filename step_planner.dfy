// The step planner: compare the floor with the solver's target partition and
// describe the moves, as structured steps rather than text.  A Counter keyed by
// (rank, suit) is a multiset of cards: `&` is `*`, and Counter `-` drops counts
// that fall to zero or below, as multiset `-` does.
module Steps {
  import opened Util
  import opened Sorting
  import opened Cards
  import opened Pool
  import opened Solver
  import opened Matching

  // ----- _cards_from_counter -----

  function Copies(c: Card, n: nat): (r: seq<Card>)
    ensures |r| == n && forall i :: 0 <= i < n ==> r[i] == c
  {
    seq(n, _ => c)
  }

  /** The cards of the first k cells, each repeated as often as m holds it. */
  function Expand(m: multiset<Card>, k: int): seq<Card>
    requires 0 <= k <= 52
  {
    if k == 0 then [] else Expand(m, k - 1) + Copies(CardAt(k - 1), m[CardAt(k - 1)])
  }

  lemma {:induction false} CopiesCount(c: Card, n: nat)
    ensures multiset(Copies(c, n)) == multiset{}[c := n]
  {
    if n > 0 {
      CopiesCount(c, n - 1);
      assert Copies(c, n) == Copies(c, n - 1) + [c];
    }
  }

  lemma {:induction false} ExpandCounts(m: multiset<Card>, k: int)
    requires 0 <= k <= 52
    ensures forall x :: multiset(Expand(m, k))[x] == if CardIndex(x) < k then m[x] else 0
  {
    if k > 0 {
      ExpandCounts(m, k - 1);
      var c := CardAt(k - 1);
      CardAtIndex(k - 1);
      CopiesCount(c, m[c]);
    }
  }

  /**
   * _cards_from_counter: every card of the counter, as often as it is
   * counted, sorted in the natural (rank, suit letter) order of Card tuples.
   */
  function CardsFromCounter(m: multiset<Card>): (r: seq<Card>)
    ensures multiset(r) == m && |r| == |m| && SortedBy(r, CardOrder)
  {
    ExpandCounts(m, 52);
    assert multiset(Expand(m, 52)) == m;
    SortByFacts(Expand(m, 52), CardOrder);
    SortBy(Expand(m, 52), CardOrder)
  }

  /**
   * There is only one sorted list of a counter's cards, so the order in which
   * the counter yields its items does not matter.
   */
  lemma CardsFromCounterUnique(m: multiset<Card>, s: seq<Card>)
    requires multiset(s) == m && SortedBy(s, CardOrder)
    ensures s == CardsFromCounter(m)
  {
    var r := CardsFromCounter(m);
    forall x, y | x in s && y in s && CardOrder(x) == CardOrder(y) ensures x == y {
      CardOrderInjective(x, y);
    }
    SortedUnique(s, r, CardOrder);
  }

  // ----- sums of counters -----

  function SumOf(ms: seq<multiset<Card>>): multiset<Card>
  {
    if ms == [] then multiset{} else SumOf(ms[..|ms| - 1]) + ms[|ms| - 1]
  }

  lemma {:induction false} SumOfAppend(a: seq<multiset<Card>>, b: seq<multiset<Card>>)
    ensures SumOf(a + b) == SumOf(a) + SumOf(b)
    decreases |b|
  {
    if b == [] {
      assert a + b == a;
    } else {
      var n := |b| - 1;
      assert (a + b)[..|a + b| - 1] == a + b[..n];
      SumOfAppend(a, b[..n]);
    }
  }

  lemma SumOfStep(ms: seq<multiset<Card>>, i: int)
    requires 0 <= i < |ms|
    ensures SumOf(ms[..i + 1]) == SumOf(ms[..i]) + ms[i]
  {
    assert ms[..i + 1][..i] == ms[..i];
  }

  lemma SumOfSplit(ms: seq<multiset<Card>>, i: int)
    requires 0 <= i <= |ms|
    ensures SumOf(ms) == SumOf(ms[..i]) + SumOf(ms[i..])
  {
    assert ms == ms[..i] + ms[i..];
    SumOfAppend(ms[..i], ms[i..]);
  }

  /** The cards cited by a list of (group, cards) sources. */
  function SourcesBag(src: seq<(int, seq<Card>)>): multiset<Card>
  {
    if src == [] then multiset{} else SourcesBag(src[..|src| - 1]) + multiset(src[|src| - 1].1)
  }

  // ----- _find_sources -----

  /** One group's share: per card, what is still needed drops by what the group gives. */
  lemma TakeStep(needed: multiset<Card>, S: multiset<Card>, g: multiset<Card>,
                 remaining: multiset<Card>, overlap: multiset<Card>, before: multiset<Card>)
    requires remaining == needed - S && overlap == remaining * g
    requires before + (needed - remaining) == S
    ensures remaining - overlap == needed - (S + g)
    ensures (before + (g - overlap)) + (needed - (remaining - overlap)) == S + g
    ensures needed - (remaining - overlap) == (needed - remaining) + overlap
    ensures overlap <= g
  {
    forall x ensures (remaining - overlap)[x] == (needed - (S + g))[x] {
    }
    forall x ensures (needed - (remaining - overlap))[x] == ((needed - remaining) + overlap)[x] {
    }
    assert needed - (remaining - overlap) == (needed - remaining) + overlap;
    forall x ensures ((before + (g - overlap)) + (needed - (remaining - overlap)))[x] == (S + g)[x] {
    }
  }

  /** What is still needed once the groups are used up: the part the groups do not cover. */
  lemma FinishTaking(needed: multiset<Card>, S: multiset<Card>, total: multiset<Card>,
                     rest: multiset<Card>, taken: multiset<Card>, after: multiset<Card>)
    requires S + rest == total && after + taken == S && taken == needed - (needed - S)
    requires needed - S == multiset{} || rest == multiset{}
    ensures needed - S == needed - total
    ensures after + rest == total - needed
  {
    forall x ensures (needed - S)[x] == (needed - total)[x] {
      if (needed - S) == multiset{} {
        assert (needed - S)[x] == 0;
      }
    }
    forall x ensures (after + rest)[x] == (total - needed)[x] {
      if (needed - S) == multiset{} {
        assert (needed - S)[x] == 0;
      }
    }
  }

  /** Each source cites a non-empty part of one of the first i groups, in group order. */
  ghost predicate Cited(result: seq<(int, seq<Card>)>, orig: seq<multiset<Card>>, i: int)
  {
    (forall k :: 0 <= k < |result| ==>
      0 <= result[k].0 < i && i <= |orig| && result[k].1 != [] && multiset(result[k].1) <= orig[result[k].0]) &&
    (forall k, l :: 0 <= k < l < |result| ==> result[k].0 < result[l].0)
  }

  /**
   * The state of _find_sources after the first i released groups: what is
   * still needed, what the groups have given up, and the sources so far.
   */
  ghost predicate Taking(needed: multiset<Card>, orig: seq<multiset<Card>>, cur: seq<multiset<Card>>,
                         i: int, remaining: multiset<Card>, result: seq<(int, seq<Card>)>)
  {
    0 <= i <= |orig| && |cur| == |orig| &&
    remaining == needed - SumOf(orig[..i]) &&
    SumOf(cur[..i]) + (needed - remaining) == SumOf(orig[..i]) &&
    (forall j :: i <= j < |orig| ==> cur[j] == orig[j]) &&
    SourcesBag(result) == needed - remaining &&
    Cited(result, orig, i) &&
    Shares(needed, orig, cur, i, result)
  }

  /**
   * What released group j gives to _find_sources: what the groups before it
   * left of the needed cards, as far as j holds them.
   */
  ghost function Share(needed: multiset<Card>, orig: seq<multiset<Card>>, j: int): multiset<Card>
    requires 0 <= j < |orig|
  {
    (needed - SumOf(orig[..j])) * orig[j]
  }

  /** The released groups once _find_sources has taken from each its share of taken. */
  ghost function Left(taken: multiset<Card>, groups: seq<multiset<Card>>): (r: seq<multiset<Card>>)
    ensures |r| == |groups|
  {
    seq(|groups|, j requires 0 <= j < |groups| => groups[j] - Share(taken, groups, j))
  }

  /** Each of the first i groups has given up its share, and each source lists one share. */
  ghost predicate Shares(needed: multiset<Card>, orig: seq<multiset<Card>>, cur: seq<multiset<Card>>,
                         i: int, result: seq<(int, seq<Card>)>)
  {
    0 <= i <= |orig| == |cur| &&
    (forall j :: 0 <= j < i ==> cur[j] == orig[j] - Share(needed, orig, j)) &&
    (forall k :: 0 <= k < |result| && 0 <= result[k].0 < |orig| ==>
      result[k].1 == CardsFromCounter(Share(needed, orig, result[k].0)))
  }

  lemma SharesTaken(needed: multiset<Card>, orig: seq<multiset<Card>>, cur: seq<multiset<Card>>,
                    i: int, remaining: multiset<Card>, result: seq<(int, seq<Card>)>)
    requires Shares(needed, orig, cur, i, result) && i < |orig| && cur[i] == orig[i]
    requires remaining == needed - SumOf(orig[..i])
    ensures Shares(needed, orig, cur[i := cur[i] - remaining * cur[i]], i + 1,
                   result + [(i, CardsFromCounter(remaining * cur[i]))])
  {
    var share := remaining * cur[i];
    assert share == Share(needed, orig, i);
    var r := result + [(i, CardsFromCounter(share))];
    forall k | 0 <= k < |r| && 0 <= r[k].0 < |orig| ensures r[k].1 == CardsFromCounter(Share(needed, orig, r[k].0)) {
      if k < |result| {
        assert r[k] == result[k];
      }
    }
  }

  lemma SharesSkipped(needed: multiset<Card>, orig: seq<multiset<Card>>, cur: seq<multiset<Card>>,
                      i: int, remaining: multiset<Card>, result: seq<(int, seq<Card>)>)
    requires Shares(needed, orig, cur, i, result) && i < |orig| && cur[i] == orig[i]
    requires remaining == needed - SumOf(orig[..i]) && remaining * cur[i] == multiset{}
    ensures Shares(needed, orig, cur, i + 1, result)
  {
    assert Share(needed, orig, i) == multiset{};
    assert orig[i] - multiset{} == orig[i];
  }

  /** Once nothing more is needed, every later group's share is empty. */
  lemma ShareAfterDone(needed: multiset<Card>, orig: seq<multiset<Card>>, i: int, j: int)
    requires 0 <= i <= j < |orig| && needed - SumOf(orig[..i]) == multiset{}
    ensures Share(needed, orig, j) == multiset{}
  {
    SumOfSplit(orig[..j], i);
    assert orig[..j][..i] == orig[..i];
    forall x ensures (needed - SumOf(orig[..j]))[x] == 0 {
      assert (needed - SumOf(orig[..i]))[x] == 0;
    }
  }

  /** When the walk stops, every group has given up exactly its share. */
  lemma SharesDone(needed: multiset<Card>, orig: seq<multiset<Card>>, cur: seq<multiset<Card>>,
                   i: int, remaining: multiset<Card>, result: seq<(int, seq<Card>)>)
    requires Taking(needed, orig, cur, i, remaining, result)
    requires i == |orig| || remaining == multiset{}
    ensures forall j :: 0 <= j < |orig| ==> cur[j] == orig[j] - Share(needed, orig, j)
  {
    forall j | i <= j < |orig| ensures cur[j] == orig[j] - Share(needed, orig, j) {
      ShareAfterDone(needed, orig, i, j);
      assert orig[j] - multiset{} == orig[j];
    }
  }

  lemma TakingStart(needed: multiset<Card>, orig: seq<multiset<Card>>)
    ensures Taking(needed, orig, orig, 0, needed, [])
  {
    assert orig[..0] == [];
  }

  lemma SumOfUpdate(cur: seq<multiset<Card>>, i: int, x: multiset<Card>)
    requires 0 <= i < |cur|
    ensures SumOf(cur[i := x][..i + 1]) == SumOf(cur[..i]) + x
  {
    var c := cur[i := x];
    assert c[..i + 1] == cur[..i] + [x];
    SumOfAppend(cur[..i], [x]);
    assert SumOf([x]) == SumOf([x][..0]) + x;
  }

  lemma SourcesBagAppend(result: seq<(int, seq<Card>)>, i: int, cs: seq<Card>)
    ensures SourcesBag(result + [(i, cs)]) == SourcesBag(result) + multiset(cs)
  {
    var r := result + [(i, cs)];
    assert r[..|r| - 1] == result;
  }

  lemma CitedStep(result: seq<(int, seq<Card>)>, orig: seq<multiset<Card>>, i: int, cs: seq<Card>)
    requires 0 <= i < |orig| && cs != [] && multiset(cs) <= orig[i] && Cited(result, orig, i)
    ensures Cited(result + [(i, cs)], orig, i + 1)
  {
  }

  lemma CitedLater(result: seq<(int, seq<Card>)>, orig: seq<multiset<Card>>, i: int)
    requires 0 <= i < |orig| && Cited(result, orig, i)
    ensures Cited(result, orig, i + 1)
  {
  }

  lemma TakingIntro(needed: multiset<Card>, orig: seq<multiset<Card>>, cur: seq<multiset<Card>>,
                    i: int, remaining: multiset<Card>, result: seq<(int, seq<Card>)>)
    requires 0 <= i <= |orig| && |cur| == |orig|
    requires remaining == needed - SumOf(orig[..i])
    requires SumOf(cur[..i]) + (needed - remaining) == SumOf(orig[..i])
    requires forall j :: i <= j < |orig| ==> cur[j] == orig[j]
    requires SourcesBag(result) == needed - remaining
    requires Cited(result, orig, i)
    requires Shares(needed, orig, cur, i, result)
    ensures Taking(needed, orig, cur, i, remaining, result)
  {
  }

  /** What is still needed after group i. */
  lemma StepRemaining(needed: multiset<Card>, orig: seq<multiset<Card>>, i: int,
                      remaining: multiset<Card>, before: multiset<Card>)
    requires 0 <= i < |orig| && remaining == needed - SumOf(orig[..i])
    requires before + (needed - remaining) == SumOf(orig[..i])
    ensures var overlap := remaining * orig[i];
      remaining - overlap == needed - SumOf(orig[..i + 1]) &&
      needed - (remaining - overlap) == (needed - remaining) + overlap && overlap <= orig[i]
  {
    TakeStep(needed, SumOf(orig[..i]), orig[i], remaining, remaining * orig[i], before);
    SumOfStep(orig, i);
  }

  /** What the first i + 1 groups have left after group i gives its share. */
  lemma StepGiven(needed: multiset<Card>, orig: seq<multiset<Card>>, cur: seq<multiset<Card>>, i: int,
                  remaining: multiset<Card>)
    requires 0 <= i < |orig| == |cur| && cur[i] == orig[i] && remaining == needed - SumOf(orig[..i])
    requires SumOf(cur[..i]) + (needed - remaining) == SumOf(orig[..i])
    ensures var overlap := remaining * orig[i];
      SumOf(cur[i := orig[i] - overlap][..i + 1]) + (needed - (remaining - overlap)) == SumOf(orig[..i + 1])
  {
    var overlap := remaining * orig[i];
    TakeStep(needed, SumOf(orig[..i]), orig[i], remaining, overlap, SumOf(cur[..i]));
    SumOfStep(orig, i);
    SumOfUpdate(cur, i, orig[i] - overlap);
  }

  /** Group i gives something: it loses that part and a source is cited. */
  lemma TakingTaken(needed: multiset<Card>, orig: seq<multiset<Card>>, cur: seq<multiset<Card>>,
                    i: int, remaining: multiset<Card>, result: seq<(int, seq<Card>)>)
    requires Taking(needed, orig, cur, i, remaining, result) && i < |orig|
    requires remaining * cur[i] != multiset{}
    ensures var overlap := remaining * cur[i];
      Taking(needed, orig, cur[i := cur[i] - overlap], i + 1, remaining - overlap,
             result + [(i, CardsFromCounter(overlap))])
  {
    var g := cur[i];
    assert g == orig[i];
    var overlap := remaining * g;
    var cs := CardsFromCounter(overlap);
    StepRemaining(needed, orig, i, remaining, SumOf(cur[..i]));
    StepGiven(needed, orig, cur, i, remaining);
    SourcesBagAppend(result, i, cs);
    assert |cs| == |overlap| > 0;
    CitedStep(result, orig, i, cs);
    SharesTaken(needed, orig, cur, i, remaining, result);
    TakingIntro(needed, orig, cur[i := g - overlap], i + 1, remaining - overlap, result + [(i, cs)]);
  }

  /** Nothing of what is still needed is in g: taking g into account changes nothing. */
  lemma SkipRemaining(needed: multiset<Card>, S: multiset<Card>, g: multiset<Card>, remaining: multiset<Card>)
    requires remaining == needed - S && remaining * g == multiset{}
    ensures remaining == needed - (S + g)
  {
    forall x ensures remaining[x] == (needed - (S + g))[x] {
      assert (remaining * g)[x] == 0;
    }
  }

  /** Group i gives nothing: everything stays as it was. */
  lemma TakingSkipped(needed: multiset<Card>, orig: seq<multiset<Card>>, cur: seq<multiset<Card>>,
                      i: int, remaining: multiset<Card>, result: seq<(int, seq<Card>)>)
    requires Taking(needed, orig, cur, i, remaining, result) && i < |orig|
    requires remaining * cur[i] == multiset{}
    ensures Taking(needed, orig, cur, i + 1, remaining, result)
  {
    assert cur[i] == orig[i];
    SumOfStep(orig, i);
    SumOfStep(cur, i);
    SkipRemaining(needed, SumOf(orig[..i]), orig[i], remaining);
    CitedLater(result, orig, i);
    SharesSkipped(needed, orig, cur, i, remaining, result);
    TakingIntro(needed, orig, cur, i + 1, remaining, result);
  }

  /** Groups the walk has not reached still hold what they held. */
  lemma TailUntouched(orig: seq<multiset<Card>>, cur: seq<multiset<Card>>, i: int)
    requires 0 <= i <= |orig| == |cur|
    requires forall j :: i <= j < |orig| ==> cur[j] == orig[j]
    ensures SumOf(cur) == SumOf(cur[..i]) + SumOf(orig[i..])
    ensures i == |orig| ==> SumOf(orig[i..]) == multiset{}
  {
    assert cur[i..] == orig[i..];
    SumOfSplit(cur, i);
    if i == |orig| {
      assert orig[i..] == [];
    }
  }

  /** When the walk stops, what is still needed and what the groups hold, against the whole floor. */
  lemma TakingDoneSums(needed: multiset<Card>, orig: seq<multiset<Card>>, cur: seq<multiset<Card>>,
                       i: int, remaining: multiset<Card>, result: seq<(int, seq<Card>)>)
    requires Taking(needed, orig, cur, i, remaining, result)
    requires i == |orig| || remaining == multiset{}
    ensures remaining == needed - SumOf(orig)
    ensures SumOf(cur) == SumOf(orig) - needed
  {
    SumOfSplit(orig, i);
    TailUntouched(orig, cur, i);
    ghost var S, rest := SumOf(orig[..i]), SumOf(orig[i..]);
    FinishTaking(needed, S, SumOf(orig), rest, needed - remaining, SumOf(cur[..i]));
  }

  /** When the walk stops, the groups have given up exactly what was needed, as far as they could. */
  lemma TakingDone(needed: multiset<Card>, orig: seq<multiset<Card>>, cur: seq<multiset<Card>>,
                   i: int, remaining: multiset<Card>, result: seq<(int, seq<Card>)>)
    requires Taking(needed, orig, cur, i, remaining, result)
    requires i == |orig| || remaining == multiset{}
    ensures remaining == multiset{} <==> needed <= SumOf(orig)
    ensures SumOf(cur) == SumOf(orig) - needed
    ensures remaining == multiset{} ==> SourcesBag(result) == needed
    ensures needed == multiset{} ==> result == []
  {
    TakingDoneSums(needed, orig, cur, i, remaining, result);
    DiffEmptyIff(needed, SumOf(orig));
    SourcesBagEmpty(result);
  }

  /** Every source cites at least one card, so no sources cite nothing. */
  lemma SourcesBagEmpty(src: seq<(int, seq<Card>)>)
    requires forall k :: 0 <= k < |src| ==> src[k].1 != []
    ensures SourcesBag(src) == multiset{} ==> src == []
  {
    if src != [] {
      var last := src[|src| - 1].1;
      assert last[0] in multiset(last);
    }
  }

  /**
   * _find_sources: walk the released groups in order, taking from each what
   * is still needed.  The groups are reduced in place even when, in the end,
   * they do not cover everything: then no sources are reported.  Sources are
   * reported exactly when the released groups cover the needed cards, and
   * then they cite exactly those cards, each from a group that held it.
   */
  method FindSources(needed: multiset<Card>, byGroup: array<multiset<Card>>)
    returns (sources: seq<(int, seq<Card>)>)
    modifies byGroup
    ensures sources != [] <==> needed != multiset{} && needed <= SumOf(old(byGroup[..]))
    ensures sources != [] ==> SourcesBag(sources) == needed
    ensures forall k :: 0 <= k < |sources| ==>
      0 <= sources[k].0 < byGroup.Length && multiset(sources[k].1) <= old(byGroup[..])[sources[k].0]
    ensures forall k, l :: 0 <= k < l < |sources| ==> sources[k].0 < sources[l].0
    ensures forall k :: 0 <= k < |sources| ==>
      0 <= sources[k].0 < byGroup.Length &&
      sources[k].1 == CardsFromCounter(Share(needed, old(byGroup[..]), sources[k].0))
    ensures forall k :: 0 <= k < |sources| ==> sources[k].1 != []
    ensures forall j :: 0 <= j < byGroup.Length ==> byGroup[..][j] == old(byGroup[..])[j] - Share(needed, old(byGroup[..]), j)
    ensures SumOf(byGroup[..]) == SumOf(old(byGroup[..])) - needed
  {
    ghost var orig := byGroup[..];
    var result: seq<(int, seq<Card>)> := [];
    var remaining := needed;
    var i := 0;
    TakingStart(needed, orig);
    while i < byGroup.Length
      invariant Taking(needed, orig, byGroup[..], i, remaining, result)
      decreases byGroup.Length - i
    {
      remaining, result := TakeShare(needed, orig, byGroup, i, remaining, result);
      i := i + 1;
      if remaining == multiset{} {
        break;
      }
    }
    sources := if remaining == multiset{} then result else [];
    FindSourcesOutcome(needed, orig, byGroup[..], i, remaining, result, sources);
    SourcesShares(needed, orig, byGroup[..], i, remaining, result, sources);
  }

  /** One round of _find_sources: group i gives what it holds of the cards still needed. */
  method TakeShare(ghost needed: multiset<Card>, ghost orig: seq<multiset<Card>>, byGroup: array<multiset<Card>>,
                   i: int, remaining: multiset<Card>, result: seq<(int, seq<Card>)>)
    returns (remaining': multiset<Card>, result': seq<(int, seq<Card>)>)
    requires 0 <= i < byGroup.Length && Taking(needed, orig, byGroup[..], i, remaining, result)
    modifies byGroup
    ensures Taking(needed, orig, byGroup[..], i + 1, remaining', result')
  {
    ghost var cur := byGroup[..];
    var overlap := remaining * byGroup[i];
    if overlap != multiset{} {
      TakingTaken(needed, orig, cur, i, remaining, result);
      result' := result + [(i, CardsFromCounter(overlap))];
      remaining' := remaining - overlap;
      byGroup[i] := byGroup[i] - overlap;
      assert byGroup[..] == cur[i := cur[i] - overlap];
    } else {
      TakingSkipped(needed, orig, cur, i, remaining, result);
      remaining', result' := remaining, result;
    }
  }

  /** What the walk of _find_sources has produced once it stops. */
  lemma FindSourcesOutcome(needed: multiset<Card>, orig: seq<multiset<Card>>, cur: seq<multiset<Card>>,
                           i: int, remaining: multiset<Card>, result: seq<(int, seq<Card>)>,
                           sources: seq<(int, seq<Card>)>)
    requires Taking(needed, orig, cur, i, remaining, result)
    requires i == |orig| || remaining == multiset{}
    requires sources == if remaining == multiset{} then result else []
    ensures sources != [] <==> needed != multiset{} && needed <= SumOf(orig)
    ensures sources != [] ==> SourcesBag(sources) == needed
    ensures forall k :: 0 <= k < |sources| ==>
      0 <= sources[k].0 < |orig| && multiset(sources[k].1) <= orig[sources[k].0]
    ensures forall k, l :: 0 <= k < l < |sources| ==> sources[k].0 < sources[l].0
    ensures forall k :: 0 <= k < |sources| ==> sources[k].1 != []
    ensures SumOf(cur) == SumOf(orig) - needed
  {
    TakingDone(needed, orig, cur, i, remaining, result);
    SourcesBagEmpty(result);
  }

  /** Once the walk of _find_sources stops, which group gave what. */
  lemma SourcesShares(needed: multiset<Card>, orig: seq<multiset<Card>>, cur: seq<multiset<Card>>,
                      i: int, remaining: multiset<Card>, result: seq<(int, seq<Card>)>,
                      sources: seq<(int, seq<Card>)>)
    requires Taking(needed, orig, cur, i, remaining, result)
    requires i == |orig| || remaining == multiset{}
    requires sources == if remaining == multiset{} then result else []
    ensures forall k :: 0 <= k < |sources| ==>
      0 <= sources[k].0 < |orig| && sources[k].1 == CardsFromCounter(Share(needed, orig, sources[k].0))
    ensures forall j :: 0 <= j < |orig| ==> cur[j] == orig[j] - Share(needed, orig, j)
  {
    SharesDone(needed, orig, cur, i, remaining, result);
  }

  lemma {:induction false} SourcesBagMember(src: seq<(int, seq<Card>)>, k: int)
    requires 0 <= k < |src|
    ensures multiset(src[k].1) <= SourcesBag(src)
  {
    if k < |src| - 1 {
      SourcesBagMember(src[..|src| - 1], k);
    }
  }

  // ----- plan_steps -----

  /** Where the floor cards of a step come from. */
  datatype FloorCards =
    | NoFloorCards                                // the step takes nothing from the floor
    | FromGroups(sources: seq<(int, seq<Card>)>)  // the cards, by the floor group that released them
    | FromFloor(cards: seq<Card>)                 // the released groups could not account for them

  /**
   * A move: an existing floor group becomes a new group, or a new group is
   * formed.  Hand and floor cards are sorted; groups are in display order.
   */
  datatype Step =
    | Reshape(group: int, fromHand: seq<Card>, fromFloor: FloorCards, before: seq<Card>, after: seq<Card>)
    | NewGroup(after: seq<Card>, fromHand: seq<Card>, fromFloor: FloorCards)

  /** The Counter of each group. */
  function Counters(gs: seq<seq<Card>>): (r: seq<multiset<Card>>)
    ensures |r| == |gs| && forall i :: 0 <= i < |gs| ==> r[i] == multiset(gs[i])
  {
    seq(|gs|, i requires 0 <= i < |gs| => multiset(gs[i]))
  }

  /** match_t2f for a floor and a target partition. */
  function PlanMatch(floor: seq<seq<Card>>, target: seq<seq<Card>>): map<int, int>
  {
    Match(Counters(target), Counters(floor))
  }

  /** The cards target t needs beyond those its matched floor group keeps for it. */
  ghost function Need(floor: seq<seq<Card>>, target: seq<seq<Card>>, m: map<int, int>, t: int): multiset<Card>
    requires 0 <= t < |target|
  {
    var tc := multiset(target[t]);
    if t in m && 0 <= m[t] < |floor| then tc - tc * multiset(floor[m[t]]) else tc
  }

  /** A matched target that needs no card: its floor group stays as it is. */
  ghost predicate Unchanged(floor: seq<seq<Card>>, target: seq<seq<Card>>, m: map<int, int>, t: int)
    requires 0 <= t < |target|
  {
    t in m && Need(floor, target, m, t) == multiset{}
  }

  /** The cards a step takes from the floor. */
  function FloorCardsBag(fc: FloorCards): multiset<Card>
  {
    match fc
    case NoFloorCards => multiset{}
    case FromGroups(src) => SourcesBag(src)
    case FromFloor(cs) => multiset(cs)
  }

  /** The hand cards the steps play. */
  function HandCited(steps: seq<Step>): multiset<Card>
  {
    if steps == [] then multiset{} else HandCited(steps[..|steps| - 1]) + multiset(steps[|steps| - 1].fromHand)
  }

  /** The floor cards the steps attribute to a released group. */
  function GroupsCited(steps: seq<Step>): multiset<Card>
  {
    if steps == [] then multiset{}
    else
      GroupsCited(steps[..|steps| - 1]) + CitedGroups(steps[|steps| - 1].fromFloor)
  }

  /** The floor cards a step attributes to released groups. */
  function CitedGroups(fc: FloorCards): multiset<Card>
  {
    if fc.FromGroups? then SourcesBag(fc.sources) else multiset{}
  }

  /**
   * released_by_group after the steps done: each step's floor cards were
   * taken from it by _find_sources, whether or not they were attributed.
   */
  ghost function GroupsLeft(released: seq<multiset<Card>>, done: seq<Step>): (r: seq<multiset<Card>>)
    ensures |r| == |released|
  {
    if done == [] then released
    else Left(FloorCardsBag(done[|done| - 1].fromFloor), GroupsLeft(released, done[..|done| - 1]))
  }

  /**
   * A step takes from the hand every needed card still in it, and the rest
   * of what it needs from the floor.  It names released groups exactly when
   * the groups still released, groups, hold all of that rest between them,
   * and then each named group gives its share.
   */
  ghost predicate TakesCards(s: Step, need: multiset<Card>, handLeft: multiset<Card>, groups: seq<multiset<Card>>)
  {
    var rest := need - multiset(s.fromHand);
    multiset(s.fromHand) == need * handLeft && SortedBy(s.fromHand, CardOrder) &&
    FloorCardsBag(s.fromFloor) == rest &&
    (s.fromFloor.NoFloorCards? <==> rest == multiset{}) &&
    (s.fromFloor.FromGroups? <==> rest != multiset{} && rest <= SumOf(groups)) &&
    (s.fromFloor.FromGroups? ==> forall j :: 0 <= j < |s.fromFloor.sources| ==>
      0 <= s.fromFloor.sources[j].0 < |groups| && s.fromFloor.sources[j].1 != [] &&
      s.fromFloor.sources[j].1 == CardsFromCounter(Share(rest, groups, s.fromFloor.sources[j].0))) &&
    (s.fromFloor.FromGroups? ==> forall j, l :: 0 <= j < l < |s.fromFloor.sources| ==>
      s.fromFloor.sources[j].0 < s.fromFloor.sources[l].0) &&
    (s.fromFloor.FromFloor? ==> s.fromFloor.cards == CardsFromCounter(rest))
  }

  /** A step reshapes the floor group target t is matched to, or forms t as a new group. */
  ghost predicate Shapes(floor: seq<seq<Card>>, m: map<int, int>, s: Step, t: int, tg: seq<Card>)
  {
    s.after == DisplayOrder(tg) &&
    (s.Reshape? <==> t in m) &&
    (s.Reshape? ==> s.group == m[t] && 0 <= s.group < |floor| && s.before == DisplayOrder(floor[s.group])) &&
    (s.fromFloor.FromGroups? ==> forall j :: 0 <= j < |s.fromFloor.sources| ==> 0 <= s.fromFloor.sources[j].0 < |floor|)
  }

  /**
   * s is the step for target t after the steps done: it is judged by the
   * hand cards those steps did not play and by what they left of the
   * released groups.
   */
  ghost predicate Describes(floor: seq<seq<Card>>, target: seq<seq<Card>>, m: map<int, int>, hand: seq<Card>,
                            released: seq<multiset<Card>>, done: seq<Step>, s: Step, t: int)
  {
    0 <= t < |target| &&
    TakesCards(s, Need(floor, target, m, t), multiset(hand) - HandCited(done), GroupsLeft(released, done)) &&
    Shapes(floor, m, s, t, target[t])
  }

  /** floor_staying after the matches of the first n targets. */
  function Staying(T: seq<multiset<Card>>, F: seq<multiset<Card>>, m: map<int, int>, n: int): map<int, multiset<Card>>
    requires 0 <= n <= |T|
  {
    if n == 0 then map[]
    else if n - 1 in m && 0 <= m[n - 1] < |F| then Staying(T, F, m, n - 1)[m[n - 1] := T[n - 1] * F[m[n - 1]]]
    else Staying(T, F, m, n - 1)
  }

  /** Under an injective match each floor group keeps exactly the cards it shares with its target. */
  lemma {:induction false} StayingFacts(T: seq<multiset<Card>>, F: seq<multiset<Card>>, m: map<int, int>, n: int)
    requires 0 <= n <= |T| && Injective(m)
    ensures forall t :: 0 <= t < n && t in m && 0 <= m[t] < |F| ==>
      m[t] in Staying(T, F, m, n) && Staying(T, F, m, n)[m[t]] == T[t] * F[m[t]]
    ensures forall f :: f in Staying(T, F, m, n) ==> 0 <= f < |F| && f in Used(m)
  {
    if n > 0 {
      StayingFacts(T, F, m, n - 1);
    }
  }

  /** floor_staying.get(fi, Counter()) */
  function StayingAt(staying: map<int, multiset<Card>>, f: int): multiset<Card>
  {
    if f in staying then staying[f] else multiset{}
  }

  /** The counters of a list of groups. */
  method CountersOf(gs: seq<seq<Card>>) returns (r: seq<multiset<Card>>)
    ensures r == Counters(gs)
  {
    r := [];
    var i := 0;
    while i < |gs|
      invariant 0 <= i <= |gs| && |r| == i && forall j :: 0 <= j < i ==> r[j] == multiset(gs[j])
    {
      var c := CardCounts(gs[i]);
      r := r + [c];
      i := i + 1;
    }
  }

  /** The two nested loops that list each (overlap, target, floor) that shares a card. */
  method ListPairs(T: seq<multiset<Card>>, F: seq<multiset<Card>>) returns (pairs: seq<Triple>)
    ensures pairs == AllPairs(T, F, |T|)
  {
    pairs := [];
    var ti := 0;
    while ti < |T|
      invariant 0 <= ti <= |T| && pairs == AllPairs(T, F, ti)
    {
      var fi := 0;
      while fi < |F|
        invariant 0 <= fi <= |F| && pairs == AllPairs(T, F, ti) + Row(T, F, ti, fi)
      {
        var overlap := |T[ti] * F[fi]|;
        if overlap > 0 {
          pairs := pairs + [(overlap, ti, fi)];
        }
        fi := fi + 1;
      }
      ti := ti + 1;
    }
  }

  /** The greedy loop over the sorted pairs. */
  method GreedyMatch(P: seq<Triple>) returns (m: map<int, int>)
    ensures m == Greedy(P, |P|)
  {
    m := map[];
    var used: set<int> := {};
    var k := 0;
    while k < |P|
      invariant 0 <= k <= |P| && m == Greedy(P, k) && used == Used(m)
    {
      var (overlap, ti, fi) := P[k];
      if ti !in m && fi !in used {
        UsedAdd(m, ti, fi);
        m := m[ti := fi];
        used := used + {fi};
      }
      k := k + 1;
    }
  }

  /** A dict that later steps update in place. */
  method ToArray(s: seq<multiset<Card>>) returns (a: array<multiset<Card>>)
    ensures fresh(a) && a[..] == s
  {
    a := new multiset<Card>[|s|](i requires 0 <= i < |s| => s[i]);
  }

  /** The pairs, sorted in reverse, and the greedy match over them. */
  method MatchGroups(T: seq<multiset<Card>>, F: seq<multiset<Card>>) returns (t2f: map<int, int>)
    ensures t2f == Match(T, F) && MatchOk(t2f, |T|, |F|)
  {
    var pairs := ListPairs(T, F);
    pairs := SortBy(pairs, ReverseKey(|T| + |F| + 1));
    t2f := GreedyMatch(pairs);
    MatchFacts(T, F);
  }

  /** floor_staying: for each matched floor group, the cards it shares with its target. */
  method FloorStaying(T: seq<multiset<Card>>, F: seq<multiset<Card>>, m: map<int, int>) returns (staying: map<int, multiset<Card>>)
    ensures staying == Staying(T, F, m, |T|)
  {
    staying := map[];
    var ti := 0;
    while ti < |T|
      invariant 0 <= ti <= |T| && staying == Staying(T, F, m, ti)
    {
      if ti in m && 0 <= m[ti] < |F| {
        var fi := m[ti];
        staying := staying[fi := T[ti] * F[fi]];
      }
      ti := ti + 1;
    }
  }

  /** All the cards the floor groups release, for a floor and a target partition: released. */
  ghost function TotalReleased(floor: seq<seq<Card>>, target: seq<seq<Card>>): multiset<Card>
  {
    SumOf(ReleasedGroups(floor, target))
  }

  /** released_by_group for a floor and a target partition. */
  ghost function ReleasedGroups(floor: seq<seq<Card>>, target: seq<seq<Card>>): seq<multiset<Card>>
  {
    var T, F := Counters(target), Counters(floor);
    Freed(F, Staying(T, F, Match(T, F), |T|), |F|)
  }

  /** released_by_group for the first n floor groups. */
  function Freed(F: seq<multiset<Card>>, staying: map<int, multiset<Card>>, n: int): seq<multiset<Card>>
    requires 0 <= n <= |F|
  {
    if n == 0 then [] else Freed(F, staying, n - 1) + [F[n - 1] - StayingAt(staying, n - 1)]
  }

  /** Each floor group releases the cards that do not stay in its matched target. */
  lemma {:induction false} FreedAt(F: seq<multiset<Card>>, staying: map<int, multiset<Card>>, n: int)
    requires 0 <= n <= |F|
    ensures |Freed(F, staying, n)| == n
    ensures forall f :: 0 <= f < n ==> Freed(F, staying, n)[f] == F[f] - StayingAt(staying, f)
    ensures forall f :: 0 <= f < n ==> Freed(F, staying, n)[f] <= F[f]
  {
    if n > 0 {
      FreedAt(F, staying, n - 1);
    }
  }

  lemma SumOfSnoc(ms: seq<multiset<Card>>, x: multiset<Card>)
    ensures SumOf(ms + [x]) == SumOf(ms) + x
  {
    assert (ms + [x])[..|ms|] == ms;
  }

  lemma FreedStep(F: seq<multiset<Card>>, staying: map<int, multiset<Card>>, n: int)
    requires 0 <= n < |F|
    ensures Freed(F, staying, n + 1) == Freed(F, staying, n) + [F[n] - StayingAt(staying, n)]
    ensures SumOf(Freed(F, staying, n + 1)) == SumOf(Freed(F, staying, n)) + (F[n] - StayingAt(staying, n))
  {
    SumOfSnoc(Freed(F, staying, n), F[n] - StayingAt(staying, n));
  }

  /** released_by_group and their sum, released. */
  method ReleasedByGroup(F: seq<multiset<Card>>, staying: map<int, multiset<Card>>)
    returns (byGroup: seq<multiset<Card>>, released: multiset<Card>)
    ensures byGroup == Freed(F, staying, |F|) && released == SumOf(byGroup)
  {
    byGroup := [];
    released := multiset{};
    var fi := 0;
    while fi < |F|
      invariant 0 <= fi <= |F| && byGroup == Freed(F, staying, fi) && released == SumOf(byGroup)
    {
      var stay := StayingAt(staying, fi);
      var freed := F[fi] - stay;
      FreedStep(F, staying, fi);
      byGroup := byGroup + [freed];
      released := released + freed;
      fi := fi + 1;
    }
  }

  /**
   * The floor part of a step: nothing when no floor card is needed; the
   * released groups, each with its share, whenever together they still hold
   * the cards; otherwise the cards alone.  The released groups give up the
   * cards either way.
   */
  method TakeFromFloor(fromFloor: multiset<Card>, byGroup: array<multiset<Card>>) returns (fc: FloorCards)
    modifies byGroup
    ensures FloorCardsBag(fc) == fromFloor && (fc.NoFloorCards? <==> fromFloor == multiset{})
    ensures fc.FromGroups? <==> fromFloor != multiset{} && fromFloor <= SumOf(old(byGroup[..]))
    ensures fc.FromGroups? ==> forall j :: 0 <= j < |fc.sources| ==>
      0 <= fc.sources[j].0 < byGroup.Length && fc.sources[j].1 != [] &&
      fc.sources[j].1 == CardsFromCounter(Share(fromFloor, old(byGroup[..]), fc.sources[j].0))
    ensures fc.FromGroups? ==> forall j, l :: 0 <= j < l < |fc.sources| ==> fc.sources[j].0 < fc.sources[l].0
    ensures fc.FromFloor? ==> fc.cards == CardsFromCounter(fromFloor)
    ensures SumOf(byGroup[..]) == SumOf(old(byGroup[..])) - fromFloor
    ensures byGroup[..] == Left(fromFloor, old(byGroup[..]))
    ensures CitedGroups(fc) + SumOf(byGroup[..]) <= SumOf(old(byGroup[..]))
  {
    if fromFloor == multiset{} {
      NothingTakenLeft(byGroup[..]);
      return NoFloorCards;
    }
    ghost var orig := byGroup[..];
    var sources := FindSources(fromFloor, byGroup);
    assert byGroup[..] == Left(fromFloor, orig);
    if sources != [] {
      fc := FromGroups(sources);
    } else {
      fc := FromFloor(CardsFromCounter(fromFloor));
    }
  }

  lemma CitedChain(cited: multiset<Card>, c: multiset<Card>, rest: multiset<Card>, mid: multiset<Card>)
    requires c + rest <= mid
    ensures (cited + c) + rest <= cited + mid
  {
  }

  lemma GroupsCitedStep(steps: seq<Step>, s: Step)
    ensures GroupsCited(steps + [s]) == GroupsCited(steps) + CitedGroups(s.fromFloor)
  {
    assert (steps + [s])[..|steps|] == steps;
  }

  /** Taking nothing leaves every released group as it is. */
  lemma NothingTakenLeft(groups: seq<multiset<Card>>)
    ensures Left(multiset{}, groups) == groups
  {
    forall j | 0 <= j < |groups| ensures Left(multiset{}, groups)[j] == groups[j] {
      assert Share(multiset{}, groups, j) == multiset{};
    }
  }

  lemma GroupsLeftStep(released: seq<multiset<Card>>, steps: seq<Step>, s: Step)
    ensures GroupsLeft(released, steps + [s]) == Left(FloorCardsBag(s.fromFloor), GroupsLeft(released, steps))
  {
    assert (steps + [s])[..|steps|] == steps;
  }


  lemma FirstMember(s: seq<int>)
    ensures |s| > 0 ==> s[0] in s
  {
  }

  lemma AppendMember(s: seq<int>, x: int, y: int)
    requires y != x
    ensures (y in s + [x]) == (y in s)
  {
  }

  /** Planning a floor onto itself: every group is matched to a copy of itself and needs no card. */
  lemma SameFloorUnchanged(floor: seq<seq<Card>>, target: seq<seq<Card>>, m: map<int, int>)
    requires m == PlanMatch(floor, target)
    ensures target == floor && (forall i :: 0 <= i < |floor| ==> floor[i] != []) ==>
      forall t :: 0 <= t < |target| ==> Unchanged(floor, target, m, t)
  {
    if target == floor && (forall i :: 0 <= i < |floor| ==> floor[i] != []) {
      var G := Counters(floor);
      forall i | 0 <= i < |G| ensures G[i] != multiset{} {
        assert floor[i][0] in G[i];
      }
      SelfMatchFull(G);
      forall t | 0 <= t < |target| ensures Unchanged(floor, target, m, t) {
        SubIntersect(G[t], G[Match(G, G)[t]]);
      }
    }
  }

  /** A one-to-one match of target indices to floor indices. */
  ghost predicate MatchOk(m: map<int, int>, targets: int, floors: int)
  {
    Injective(m) && forall t :: t in m ==> 0 <= t < targets && 0 <= m[t] < floors
  }

  /** needed for target ti: its cards less those its matched floor group keeps for it. */
  method NeededFor(ghost floor: seq<seq<Card>>, ghost target: seq<seq<Card>>, T: seq<multiset<Card>>,
                   m: map<int, int>, staying: map<int, multiset<Card>>, ti: int) returns (needed: multiset<Card>)
    requires T == Counters(target) && MatchOk(m, |target|, |floor|)
    requires staying == Staying(T, Counters(floor), m, |T|) && 0 <= ti < |target|
    ensures needed == Need(floor, target, m, ti)
  {
    needed := T[ti];
    if ti in m {
      StayingFacts(T, Counters(floor), m, |T|);
      var fi := m[ti];
      needed := T[ti] - staying[fi];
    }
  }

  /**
   * The step for a target that is new or changed: the needed cards still in
   * the hand are played from it, the rest come from the floor.
   */
  method MakeStep(floor: seq<seq<Card>>, target: seq<seq<Card>>, ti: int, m: map<int, int>,
                  needed: multiset<Card>, remainingHand: multiset<Card>, byGroup: array<multiset<Card>>)
    returns (s: Step, fromHand: multiset<Card>)
    requires MatchOk(m, |target|, |floor|) && 0 <= ti < |target| && byGroup.Length == |floor|
    modifies byGroup
    ensures fromHand == needed * remainingHand && multiset(s.fromHand) == fromHand
    ensures TakesCards(s, needed, remainingHand, old(byGroup[..])) && Shapes(floor, m, s, ti, target[ti])
    ensures byGroup[..] == Left(FloorCardsBag(s.fromFloor), old(byGroup[..]))
    ensures SumOf(byGroup[..]) == SumOf(old(byGroup[..])) - FloorCardsBag(s.fromFloor)
    ensures CitedGroups(s.fromFloor) + SumOf(byGroup[..]) <= SumOf(old(byGroup[..]))
  {
    fromHand := needed * remainingHand;
    var fromFloor := needed - fromHand;
    var floorPart := TakeFromFloor(fromFloor, byGroup);
    if ti in m {
      var fi := m[ti];
      s := Reshape(fi, CardsFromCounter(fromHand), floorPart, DisplayOrder(floor[fi]), DisplayOrder(target[ti]));
    } else {
      s := NewGroup(DisplayOrder(target[ti]), CardsFromCounter(fromHand), floorPart);
    }
  }

  /**
   * The state of the walk after the first ti targets: the steps so far, the
   * target each one is for, and the hand cards they have not played, when
   * the floor groups released the cards released.
   */
  ghost predicate Walked(floor: seq<seq<Card>>, target: seq<seq<Card>>, m: map<int, int>, hand: seq<Card>,
                         released: seq<multiset<Card>>, ti: int, steps: seq<Step>, of: seq<int>, handLeft: multiset<Card>)
  {
    0 <= ti <= |target| && |of| == |steps| &&
    (forall k :: 0 <= k < |of| ==> 0 <= of[k] < ti) &&
    (forall k, l :: 0 <= k < l < |of| ==> of[k] < of[l]) &&
    (forall t :: 0 <= t < ti ==> (t in of <==> !Unchanged(floor, target, m, t))) &&
    (forall k :: 0 <= k < |steps| ==> Describes(floor, target, m, hand, released, steps[..k], steps[k], of[k])) &&
    handLeft + HandCited(steps) == multiset(hand)
  }

  /** An unchanged target adds no step. */
  lemma WalkedSkip(floor: seq<seq<Card>>, target: seq<seq<Card>>, m: map<int, int>, hand: seq<Card>,
                   released: seq<multiset<Card>>, ti: int, steps: seq<Step>, of: seq<int>, handLeft: multiset<Card>)
    requires Walked(floor, target, m, hand, released, ti, steps, of, handLeft)
    requires ti < |target| && Unchanged(floor, target, m, ti)
    ensures Walked(floor, target, m, hand, released, ti + 1, steps, of, handLeft)
  {
    assert ti !in of;
  }

  lemma OrderStep(of: seq<int>, ti: int)
    requires 0 <= ti
    requires forall k :: 0 <= k < |of| ==> 0 <= of[k] < ti
    requires forall k, l :: 0 <= k < l < |of| ==> of[k] < of[l]
    ensures forall k :: 0 <= k < |of + [ti]| ==> 0 <= (of + [ti])[k] < ti + 1
    ensures forall k, l :: 0 <= k < l < |of + [ti]| ==> (of + [ti])[k] < (of + [ti])[l]
  {
  }

  lemma UnchangedStep(floor: seq<seq<Card>>, target: seq<seq<Card>>, m: map<int, int>, of: seq<int>, ti: int)
    requires 0 <= ti < |target| && !Unchanged(floor, target, m, ti)
    requires forall t :: 0 <= t < ti ==> (t in of <==> !Unchanged(floor, target, m, t))
    ensures forall t :: 0 <= t < ti + 1 ==> (t in of + [ti] <==> !Unchanged(floor, target, m, t))
  {
    forall t | 0 <= t < ti + 1 ensures (t in of + [ti] <==> !Unchanged(floor, target, m, t)) {
      if t < ti {
        AppendMember(of, ti, t);
      }
    }
  }

  lemma DescribesStep(floor: seq<seq<Card>>, target: seq<seq<Card>>, m: map<int, int>, hand: seq<Card>,
                      released: seq<multiset<Card>>, ti: int, steps: seq<Step>, of: seq<int>, s: Step)
    requires 0 <= ti < |target| && |of| == |steps| && forall k :: 0 <= k < |of| ==> 0 <= of[k] < ti
    requires forall k :: 0 <= k < |steps| ==> Describes(floor, target, m, hand, released, steps[..k], steps[k], of[k])
    requires Describes(floor, target, m, hand, released, steps, s, ti)
    ensures forall k :: 0 <= k < |steps + [s]| ==>
      Describes(floor, target, m, hand, released, (steps + [s])[..k], (steps + [s])[k], (of + [ti])[k])
  {
    ExtendPrefixes((done, x, t) => Describes(floor, target, m, hand, released, done, x, t), steps, of, s, ti);
  }



  lemma HandStep(hand: seq<Card>, steps: seq<Step>, s: Step, handLeft: multiset<Card>)
    requires handLeft + HandCited(steps) == multiset(hand)
    requires multiset(s.fromHand) <= handLeft
    ensures (handLeft - multiset(s.fromHand)) + HandCited(steps + [s]) == multiset(hand)
  {
    assert (steps + [s])[..|steps|] == steps;
    assert HandCited(steps + [s]) == HandCited(steps) + multiset(s.fromHand);
  }

  /** A new or changed target adds its step. */
  lemma WalkedStep(floor: seq<seq<Card>>, target: seq<seq<Card>>, m: map<int, int>, hand: seq<Card>,
                   released: seq<multiset<Card>>, ti: int, steps: seq<Step>, of: seq<int>, handLeft: multiset<Card>, s: Step)
    requires Walked(floor, target, m, hand, released, ti, steps, of, handLeft)
    requires ti < |target| && !Unchanged(floor, target, m, ti)
    requires TakesCards(s, Need(floor, target, m, ti), handLeft, GroupsLeft(released, steps))
    requires Shapes(floor, m, s, ti, target[ti])
    ensures Walked(floor, target, m, hand, released, ti + 1, steps + [s], of + [ti], handLeft - multiset(s.fromHand))
  {
    MultisetCancel(handLeft, HandCited(steps));
    OrderStep(of, ti);
    UnchangedStep(floor, target, m, of, ti);
    assert Describes(floor, target, m, hand, released, steps, s, ti);
    DescribesStep(floor, target, m, hand, released, ti, steps, of, s);
    HandStep(hand, steps, s, handLeft);
  }

  /** Planning a floor onto itself, when no group is empty, needs no step. */
  lemma SameFloorNoSteps(floor: seq<seq<Card>>, hand: seq<Card>, released: seq<multiset<Card>>,
                         steps: seq<Step>, of: seq<int>, handLeft: multiset<Card>)
    requires forall i :: 0 <= i < |floor| ==> floor[i] != []
    requires Walked(floor, floor, PlanMatch(floor, floor), hand, released, |floor|, steps, of, handLeft)
    ensures steps == []
  {
    SameFloorUnchanged(floor, floor, PlanMatch(floor, floor));
    FirstMember(of);
  }

  /** One round of the walk: target ti is skipped when unchanged, and otherwise adds its step. */
  method WalkOne(floor: seq<seq<Card>>, target: seq<seq<Card>>, hand: seq<Card>, T: seq<multiset<Card>>,
                 m: map<int, int>, staying: map<int, multiset<Card>>, byGroup: array<multiset<Card>>,
                 ghost released: seq<multiset<Card>>, ti: int, steps: seq<Step>, ghost of: seq<int>, remainingHand: multiset<Card>)
    returns (steps': seq<Step>, ghost of': seq<int>, remainingHand': multiset<Card>)
    requires T == Counters(target) && MatchOk(m, |target|, |floor|)
    requires staying == Staying(T, Counters(floor), m, |T|) && byGroup.Length == |floor|
    requires ti < |target| && Walked(floor, target, m, hand, released, ti, steps, of, remainingHand)
    requires byGroup[..] == GroupsLeft(released, steps)
    modifies byGroup
    ensures Walked(floor, target, m, hand, released, ti + 1, steps', of', remainingHand')
    ensures byGroup[..] == GroupsLeft(released, steps')
    ensures GroupsCited(steps') + SumOf(byGroup[..]) <= GroupsCited(steps) + SumOf(old(byGroup[..]))
  {
    var needed := NeededFor(floor, target, T, m, staying, ti);
    if ti in m && needed == multiset{} {
      WalkedSkip(floor, target, m, hand, released, ti, steps, of, remainingHand);
      steps', of', remainingHand' := steps, of, remainingHand;
    } else {
      var s, fromHand := MakeStep(floor, target, ti, m, needed, remainingHand, byGroup);
      WalkedStep(floor, target, m, hand, released, ti, steps, of, remainingHand, s);
      GroupsLeftStep(released, steps, s);
      GroupsCitedStep(steps, s);
      CitedChain(GroupsCited(steps), CitedGroups(s.fromFloor), SumOf(byGroup[..]), SumOf(old(byGroup[..])));
      steps', of', remainingHand' := steps + [s], of + [ti], remainingHand - fromHand;
    }
  }

  /**
   * The walk over the target groups: one step for each target that is new
   * or changed, in target order.
   */
  method WalkTargets(floor: seq<seq<Card>>, target: seq<seq<Card>>, hand: seq<Card>, T: seq<multiset<Card>>,
                     m: map<int, int>, staying: map<int, multiset<Card>>, byGroup: array<multiset<Card>>)
    returns (steps: seq<Step>, ghost of: seq<int>, ghost handLeft: multiset<Card>)
    requires T == Counters(target) && MatchOk(m, |target|, |floor|)
    requires staying == Staying(T, Counters(floor), m, |T|) && byGroup.Length == |floor|
    modifies byGroup
    ensures Walked(floor, target, m, hand, old(byGroup[..]), |target|, steps, of, handLeft)
    ensures GroupsCited(steps) + SumOf(byGroup[..]) <= SumOf(old(byGroup[..]))
  {
    ghost var released := byGroup[..];
    var remainingHand := CardCounts(hand);
    steps, of := [], [];
    var ti := 0;
    while ti < |target|
      invariant Walked(floor, target, m, hand, released, ti, steps, of, remainingHand)
      invariant byGroup[..] == GroupsLeft(released, steps)
      invariant GroupsCited(steps) + SumOf(byGroup[..]) <= SumOf(old(byGroup[..]))
    {
      ghost var cited0, rest0 := GroupsCited(steps), SumOf(byGroup[..]);
      steps, of, remainingHand := WalkOne(floor, target, hand, T, m, staying, byGroup, released, ti, steps, of, remainingHand);
      SubsetTrans(GroupsCited(steps) + SumOf(byGroup[..]), cited0 + rest0, SumOf(old(byGroup[..])));
      ti := ti + 1;
    }
    handLeft := remainingHand;
  }

  /**
   * plan_steps: one step per target group that is new or changed, in target
   * order.  Each step plays from the hand what the earlier steps left of
   * the cards its target needs, takes the rest from the floor, and names the
   * released groups those cards come from when they can be accounted for.
   */
  method PlanSteps(floor: seq<seq<Card>>, target: seq<seq<Card>>, hand: seq<Card>)
    returns (steps: seq<Step>, ghost of: seq<int>, ghost m: map<int, int>, ghost handLeft: multiset<Card>)
    ensures m == PlanMatch(floor, target)
    ensures Walked(floor, target, m, hand, ReleasedGroups(floor, target), |target|, steps, of, handLeft)
    ensures GroupsCited(steps) <= TotalReleased(floor, target)
    ensures target == floor && (forall i :: 0 <= i < |floor| ==> floor[i] != []) ==> steps == []
  {
    var F := CountersOf(floor);
    var T := CountersOf(target);
    var t2f := MatchGroups(T, F);
    m := t2f;
    var staying := FloorStaying(T, F, t2f);
    var freed, released := ReleasedByGroup(F, staying);
    var byGroup := ToArray(freed);
    FreedAt(F, staying, |F|);
    steps, of, handLeft := WalkTargets(floor, target, hand, T, t2f, staying, byGroup);
    if target == floor && (forall i :: 0 <= i < |floor| ==> floor[i] != []) {
      SameFloorNoSteps(floor, hand, ReleasedGroups(floor, target), steps, of, handLeft);
    }
  }
}
