// The game rules: the state of a two-player game (the deck, both hands, the
// floor, the four cross slots, whose turn it is and who has won), dealing,
// drawing, checking a proposed play and carrying it out.  A Counter keyed by
// (rank, suit) is a multiset of cards; an incorporated cross slot is None.
module Engine {
  import opened Util
  import opened Cards
  import opened Groups

  datatype Player = Human | Bot

  /** The player whose turn follows. */
  function Other(p: Player): (q: Player)
    ensures q != p && (q == Human || q == Bot)
  {
    if p == Human then Bot else Human
  }

  // ----- the deck -----

  /** One deck in the order of the comprehension: suit by suit, ranks 1 to 13. */
  function OneDeck(): (d: seq<Card>)
    ensures |d| == 52 && forall i :: 0 <= i < 52 ==> d[i] == Card(i % 13 + 1, SUITS[i / 13])
  {
    seq(52, i requires 0 <= i < 52 => Card(i % 13 + 1, SUITS[i / 13]))
  }

  /** _make_deck before the shuffle: two decks, 104 cards. */
  function TwoDecks(): (d: seq<Card>)
    ensures |d| == 104
  {
    OneDeck() + OneDeck()
  }

  lemma OneDeckHolds(c: Card)
    ensures c in OneDeck()
  {
    var i := SuitIndex(c.suit) * 13 + c.rank - 1;
    assert i % 13 + 1 == c.rank && i / 13 == SuitIndex(c.suit);
    assert OneDeck()[i] == c;
  }

  lemma OneDeckNoDup()
    ensures NoDup(OneDeck())
  {
    var d := OneDeck();
    forall i, j | 0 <= i < j < 52 ensures d[i] != d[j] {
      if i / 13 == j / 13 {
        assert i % 13 != j % 13;
      } else {
        assert SuitIndex(d[i].suit) != SuitIndex(d[j].suit);
      }
    }
  }

  /** Two copies of every card. */
  ghost predicate FullDeck(m: multiset<Card>)
  {
    forall c: Card :: m[c] == 2
  }

  /** The two decks hold every card exactly twice. */
  lemma TwoDecksFull()
    ensures FullDeck(multiset(TwoDecks()))
  {
    OneDeckNoDup();
    forall c: Card ensures multiset(TwoDecks())[c] == 2 {
      OneDeckHolds(c);
      NoDupCount(OneDeck(), c);
    }
  }

  /**
   * [deck.pop() for _ in range(n)]: the top n cards of the deck, the last one
   * of the list first.
   */
  function Popped(deck: seq<Card>, n: nat): (r: seq<Card>)
    requires n <= |deck|
    ensures |r| == n && forall i :: 0 <= i < n ==> r[i] == deck[|deck| - 1 - i]
  {
    seq(n, i requires 0 <= i < n => deck[|deck| - 1 - i])
  }

  /** The popped cards and what stays in the deck are the deck's cards. */
  lemma {:induction false} PoppedCards(deck: seq<Card>, n: nat)
    requires n <= |deck|
    ensures multiset(Popped(deck, n)) + multiset(deck[..|deck| - n]) == multiset(deck)
    decreases n
  {
    if n == 0 {
      assert deck[..|deck|] == deck;
    } else {
      var rest := deck[..|deck| - 1];
      PoppedCards(rest, n - 1);
      assert rest[..|rest| - (n - 1)] == deck[..|deck| - n];
      assert Popped(deck, n) == [deck[|deck| - 1]] + Popped(rest, n - 1);
      MultisetSnoc(deck);
    }
  }

  /** The pop loop of new_game: the cards dealt and what stays in the deck. */
  method Deal(deck: seq<Card>, n: nat) returns (dealt: seq<Card>, rest: seq<Card>)
    requires n <= |deck|
    ensures dealt == Popped(deck, n) && rest == deck[..|deck| - n]
  {
    dealt, rest := [], deck;
    while |dealt| < n
      invariant |dealt| <= n && rest == deck[..|deck| - |dealt|]
      invariant forall i :: 0 <= i < |dealt| ==> dealt[i] == deck[|deck| - 1 - i]
    {
      var top := rest[|rest| - 1];
      dealt := dealt + [top];
      rest := rest[..|rest| - 1];
    }
    ghost var p := Popped(deck, n);
    assert forall i :: 0 <= i < n ==> dealt[i] == p[i];
  }

  // ----- counting -----

  /** _card_counter: how many copies of each card the list holds. */
  method CardCounter(cards: seq<Card>) returns (m: multiset<Card>)
    ensures m == multiset(cards)
  {
    m := multiset{};
    var i := 0;
    while i < |cards|
      invariant 0 <= i <= |cards| && m == multiset(cards[..i])
    {
      assert cards[..i + 1] == cards[..i] + [cards[i]];
      m := m[cards[i] := m[cards[i]] + 1];
      i := i + 1;
    }
    assert cards[..i] == cards;
  }

  /** _active_cross: the cards still lying in a cross slot, in slot order. */
  function ActiveCross(slots: seq<Option<Card>>): (r: seq<Card>)
    ensures |r| <= |slots|
    ensures forall c :: c in r <==> Some(c) in slots
  {
    if slots == [] then []
    else (if slots[0].Some? then [slots[0].value] else []) + ActiveCross(slots[1..])
  }

  /**
   * Position i of s is the first whose card A holds more copies of than B.
   * Over a list of keys with repeats, this is the first such key in the order
   * of first appearance, the order in which a Counter lists its keys.
   */
  predicate FirstOver(s: seq<Card>, i: int, A: multiset<Card>, B: multiset<Card>)
  {
    0 <= i < |s| && A[s[i]] > B[s[i]] && forall j :: 0 <= j < i ==> A[s[j]] <= B[s[j]]
  }

  /** The position of the first card of s of which A holds more copies than B, if any. */
  function FirstExcess(s: seq<Card>, A: multiset<Card>, B: multiset<Card>): (r: Option<nat>)
    ensures r.Some? ==> FirstOver(s, r.value, A, B)
    ensures r.None? ==> forall j :: 0 <= j < |s| ==> A[s[j]] <= B[s[j]]
  {
    if s == [] then None
    else if A[s[0]] > B[s[0]] then Some(0)
    else match FirstExcess(s[1..], A, B)
      case None => None
      case Some(k) => Some(k + 1)
  }

  /** The position of the first group with fewer than 3 cards or neither a set nor a run, if any. */
  function FirstBadGroup(gs: seq<seq<Card>>): (r: Option<nat>)
    ensures r.Some? ==> r.value < |gs| && (|gs[r.value]| < 3 || !IsValidGroup(gs[r.value]))
    ensures r.Some? ==> forall j :: 0 <= j < r.value ==> |gs[j]| >= 3 && IsValidGroup(gs[j])
    ensures r.None? ==> forall j :: 0 <= j < |gs| ==> |gs[j]| >= 3 && IsValidGroup(gs[j])
  {
    if gs == [] then None
    else if |gs[0]| < 3 || !IsValidGroup(gs[0]) then Some(0)
    else match FirstBadGroup(gs[1..])
      case None => None
      case Some(k) => Some(k + 1)
  }

  /** A is at most B when it is at most B on every listed card and holds only listed cards. */
  lemma AtMostOnKeys(keys: seq<Card>, A: multiset<Card>, B: multiset<Card>)
    requires forall j :: 0 <= j < |keys| ==> A[keys[j]] <= B[keys[j]]
    requires forall c :: c in A ==> c in keys
    ensures A <= B
  {
    forall c ensures A[c] <= B[c] {
      if c in keys {
        var j :| 0 <= j < |keys| && keys[j] == c;
      }
    }
  }

  /**
   * The keys of the counters validate_play compares, in the order from_cross
   * lists them: the new floor's cards, then the old floor's, then the play's.
   */
  function Keys(newFloor: seq<seq<Card>>, floor: seq<seq<Card>>, played: seq<Card>): (keys: seq<Card>)
    ensures forall c :: c in Bag(newFloor) || c in Bag(floor) || c in multiset(played) ==> c in keys
  {
    var a, b := Concat(newFloor), Concat(floor);
    assert forall c :: c in Bag(newFloor) ==> c in multiset(a);
    assert forall c :: c in Bag(floor) ==> c in multiset(b);
    a + b + played
  }

  // ----- cross anchoring -----

  /**
   * The cross cards group g claims from the unclaimed cross cards R: each of
   * its cards takes one copy while copies of it remain.
   */
  function Claimed(g: seq<Card>, R: multiset<Card>): nat
  {
    |multiset(g) * R|
  }

  /**
   * Every group claims at most one cross card, the groups claiming in order
   * from the copies the earlier groups left.
   */
  predicate CrossAnchored(groups: seq<seq<Card>>, C: multiset<Card>)
  {
    forall i :: 0 <= i < |groups| ==> Claimed(groups[i], C - Bag(groups[..i])) <= 1
  }

  lemma CrossAnchoredWithoutCross(groups: seq<seq<Card>>)
    ensures CrossAnchored(groups, multiset{})
  {
    forall i | 0 <= i < |groups| ensures Claimed(groups[i], multiset{} - Bag(groups[..i])) <= 1 {
      assert multiset(groups[i]) * (multiset{} - Bag(groups[..i])) == multiset{};
    }
  }

  /** One more card of the group: it claims a copy exactly when one is left. */
  lemma ClaimStep(g: seq<Card>, j: int, R: multiset<Card>)
    requires 0 <= j < |g|
    ensures Claimed(g[..j + 1], R) ==
      Claimed(g[..j], R) + (if g[j] in R - multiset(g[..j]) then 1 else 0)
    ensures R - multiset(g[..j + 1]) ==
      if g[j] in R - multiset(g[..j]) then (R - multiset(g[..j]))[g[j] := (R - multiset(g[..j]))[g[j]] - 1]
      else R - multiset(g[..j])
  {
    var A, x := multiset(g[..j]), g[j];
    assert g[..j + 1] == g[..j] + [x];
    if x in R - A {
      assert (A + multiset{x}) * R == A * R + multiset{x};
    } else {
      assert (A + multiset{x}) * R == A * R;
    }
  }

  /** The unclaimed copies after one more group. */
  lemma ClaimNext(groups: seq<seq<Card>>, i: int, C: multiset<Card>)
    requires 0 <= i < |groups|
    ensures C - Bag(groups[..i + 1]) == (C - Bag(groups[..i])) - multiset(groups[i])
  {
    assert groups[..i + 1][..i] == groups[..i];
  }

  // ----- validate_play -----

  datatype PlayError =
    | NothingPlayed           // no card played
    | NotInHand(card: Card)   // more copies played than the hand holds
    | ExtraCard(card: Card)   // the new floor lacks a card of the old floor or of the play
    | NotFromCross(card: Card) // the new floor has more copies than floor, play and cross give
    | TooFewCards(index: nat) // a new group has fewer than 3 cards
    | NotValidGroup(index: nat) // a new group is neither a set nor a run
    | CrossNotAnchored        // a new group holds two cross cards

  datatype Verdict = Accept | Reject(reason: PlayError)

  /**
   * validate_play, checks in the original order; a rejection names the first
   * offending card in the order the counters list their keys.
   */
  function ValidatePlay(hand: seq<Card>, floor: seq<seq<Card>>, cross: seq<Option<Card>>,
                        newFloor: seq<seq<Card>>, played: seq<Card>): (v: Verdict)
    ensures v == Reject(NothingPlayed) <==> played == []
    ensures v.Reject? && v.reason.NotInHand? ==>
      v.reason.card in played && multiset(played)[v.reason.card] > multiset(hand)[v.reason.card]
    ensures v.Reject? && v.reason.NotInHand? ==>
      exists i :: FirstOver(played, i, multiset(played), multiset(hand)) && played[i] == v.reason.card
    ensures v.Reject? && !v.reason.NothingPlayed? && !v.reason.NotInHand? ==>
      multiset(played) <= multiset(hand) && v == CheckFloor(floor, cross, newFloor, played)
    ensures v == Accept ==>
      played != [] && multiset(played) <= multiset(hand) && CheckFloor(floor, cross, newFloor, played) == Accept
  {
    var H, P := multiset(hand), multiset(played);
    if played == [] then Reject(NothingPlayed)
    else match FirstExcess(played, P, H)
      case Some(i) => Reject(NotInHand(played[i]))
      case None =>
        AtMostOnKeys(played, P, H);
        CheckFloor(floor, cross, newFloor, played)
  }

  /** The checks on the new floor: conservation, then the groups. */
  function CheckFloor(floor: seq<seq<Card>>, cross: seq<Option<Card>>,
                      newFloor: seq<seq<Card>>, played: seq<Card>): (v: Verdict)
    ensures v != Reject(NothingPlayed) && !(v.Reject? && v.reason.NotInHand?)
    ensures v.Reject? && v.reason.ExtraCard? ==>
      Bag(newFloor)[v.reason.card] < Bag(floor)[v.reason.card] + multiset(played)[v.reason.card]
    ensures v.Reject? && v.reason.ExtraCard? ==>
      var keys := Keys(newFloor, floor, played);
      exists i :: FirstOver(keys, i, Bag(floor) + multiset(played), Bag(newFloor)) && keys[i] == v.reason.card
    ensures v.Reject? && v.reason.NotFromCross? ==>
      var keys := Keys(newFloor, floor, played);
      exists i :: FirstOver(keys, i, Bag(newFloor), Bag(floor) + multiset(played) + multiset(ActiveCross(cross))) &&
        keys[i] == v.reason.card
    ensures v.Reject? && v.reason.NotFromCross? ==>
      Bag(floor) + multiset(played) <= Bag(newFloor) &&
      Bag(newFloor)[v.reason.card] >
        Bag(floor)[v.reason.card] + multiset(played)[v.reason.card] + multiset(ActiveCross(cross))[v.reason.card]
    ensures !(v.Reject? && (v.reason.ExtraCard? || v.reason.NotFromCross?)) <==>
      Bag(floor) + multiset(played) <= Bag(newFloor) &&
      Bag(newFloor) <= Bag(floor) + multiset(played) + multiset(ActiveCross(cross))
    ensures !(v.Reject? && (v.reason.ExtraCard? || v.reason.NotFromCross?)) ==>
      v == CheckGroups(newFloor, multiset(ActiveCross(cross)))
  {
    var C := multiset(ActiveCross(cross));
    match CheckCounts(Keys(newFloor, floor, played), Bag(floor), Bag(newFloor), multiset(played), C)
    case Some(e) => Reject(e)
    case None => CheckGroups(newFloor, C)
  }

  /**
   * Card conservation over the counters' keys: first that the new floor N
   * holds the old floor O and the play P, then that the rest is in the cross C.
   */
  function CheckCounts(keys: seq<Card>, O: multiset<Card>, N: multiset<Card>, P: multiset<Card>,
                       C: multiset<Card>): (r: Option<PlayError>)
    requires forall c :: c in N || c in O || c in P ==> c in keys
    ensures r.Some? ==> r.value.ExtraCard? || r.value.NotFromCross?
    ensures r.Some? && r.value.ExtraCard? ==> N[r.value.card] < O[r.value.card] + P[r.value.card]
    ensures r.Some? && r.value.ExtraCard? ==> exists i :: FirstOver(keys, i, O + P, N) && keys[i] == r.value.card
    ensures r.Some? && r.value.NotFromCross? ==> exists i :: FirstOver(keys, i, N, O + P + C) && keys[i] == r.value.card
    ensures r.Some? && r.value.NotFromCross? ==>
      O + P <= N && N[r.value.card] > O[r.value.card] + P[r.value.card] + C[r.value.card]
    ensures r.None? <==> O + P <= N && N <= O + P + C
  {
    match FirstExcess(keys, O + P, N)
    case Some(i) => Some(ExtraCard(keys[i]))
    case None =>
      AtMostOnKeys(keys, O + P, N);
      match FirstExcess(keys, N, O + P + C)
      case Some(i) => Some(NotFromCross(keys[i]))
      case None =>
        AtMostOnKeys(keys, N, O + P + C);
        None
  }

  /** Every new group has 3 cards or more and is valid, and the cross cards C stay apart. */
  function CheckGroups(newFloor: seq<seq<Card>>, C: multiset<Card>): (v: Verdict)
    ensures v.Reject? ==> v.reason.TooFewCards? || v.reason.NotValidGroup? || v.reason.CrossNotAnchored?
    ensures v.Reject? && v.reason.TooFewCards? ==>
      v.reason.index < |newFloor| && |newFloor[v.reason.index]| < 3
    ensures v.Reject? && v.reason.NotValidGroup? ==>
      v.reason.index < |newFloor| && |newFloor[v.reason.index]| >= 3 && !IsValidGroup(newFloor[v.reason.index])
    ensures v.Reject? && (v.reason.TooFewCards? || v.reason.NotValidGroup?) ==>
      v.reason.index < |newFloor| &&
      forall j :: 0 <= j < v.reason.index ==> |newFloor[j]| >= 3 && IsValidGroup(newFloor[j])
    ensures v.Reject? && v.reason.CrossNotAnchored? ==> !CrossAnchored(newFloor, C)
    ensures v == Accept <==>
      (forall g :: g in newFloor ==> |g| >= 3 && IsValidGroup(g)) && CrossAnchored(newFloor, C)
  {
    match FirstBadGroup(newFloor)
    case Some(i) =>
      if |newFloor[i]| < 3 then Reject(TooFewCards(i)) else Reject(NotValidGroup(i))
    case None =>
      if C == multiset{} then
        CrossAnchoredWithoutCross(newFloor);
        Accept
      else if !CrossAnchored(newFloor, C) then Reject(CrossNotAnchored)
      else Accept
  }

  /**
   * A play is accepted exactly when it plays at least one card, all from the
   * hand, the new floor holds the old floor and the play and otherwise only
   * active cross cards, every new group is valid, and no group holds two cross
   * cards.
   */
  lemma ValidatePlayAccepts(hand: seq<Card>, floor: seq<seq<Card>>, cross: seq<Option<Card>>,
                            newFloor: seq<seq<Card>>, played: seq<Card>)
    ensures ValidatePlay(hand, floor, cross, newFloor, played) == Accept <==>
      played != [] && multiset(played) <= multiset(hand) &&
      Bag(floor) + multiset(played) <= Bag(newFloor) &&
      Bag(newFloor) <= Bag(floor) + multiset(played) + multiset(ActiveCross(cross)) &&
      (forall g :: g in newFloor ==> |g| >= 3 && IsValidGroup(g)) &&
      CrossAnchored(newFloor, multiset(ActiveCross(cross)))
  {
    var H, P := multiset(hand), multiset(played);
    var O, N := Bag(floor), Bag(newFloor);
    var C := multiset(ActiveCross(cross));
    if played != [] && P <= H {
      assert FirstExcess(played, P, H).None?;
    }
  }

  // ----- apply_play -----

  /**
   * The hand with the played copies taken out, earliest copies first, the
   * other cards keeping their order.
   */
  function Without(hand: seq<Card>, m: multiset<Card>): seq<Card>
  {
    if hand == [] then []
    else if hand[0] in m then Without(hand[1..], m - multiset{hand[0]})
    else [hand[0]] + Without(hand[1..], m)
  }

  lemma {:induction false} WithoutCards(hand: seq<Card>, m: multiset<Card>)
    ensures multiset(Without(hand, m)) == multiset(hand) - m
  {
    if hand != [] {
      var x := hand[0];
      assert hand == [x] + hand[1..];
      if x in m {
        WithoutCards(hand[1..], m - multiset{x});
      } else {
        WithoutCards(hand[1..], m);
      }
    }
  }

  /** The hand loop of apply_play: skip a card while copies of it remain to be played. */
  method RemovePlayed(hand: seq<Card>, played: seq<Card>) returns (rest: seq<Card>)
    ensures rest == Without(hand, multiset(played))
    ensures multiset(rest) == multiset(hand) - multiset(played)
  {
    var pending := CardCounter(played);
    rest := [];
    var i := 0;
    while i < |hand|
      invariant 0 <= i <= |hand|
      invariant rest + Without(hand[i..], pending) == Without(hand, multiset(played))
    {
      assert hand[i..][1..] == hand[i + 1..];
      if hand[i] in pending {
        assert pending[hand[i] := pending[hand[i]] - 1] == pending - multiset{hand[i]};
        pending := pending[hand[i] := pending[hand[i]] - 1];
      } else {
        rest := rest + [hand[i]];
      }
      i := i + 1;
    }
    WithoutCards(hand, multiset(played));
  }

  /**
   * The cross loop of apply_play: a slot whose card still has surplus copies
   * to account for becomes None, using up one copy.
   */
  function Incorporate(slots: seq<Option<Card>>, surplus: multiset<Card>): (r: seq<Option<Card>>)
    ensures |r| == |slots|
    ensures forall i :: 0 <= i < |slots| ==> r[i] == slots[i] || (r[i] == None && slots[i].Some?)
  {
    if slots == [] then []
    else if slots[0].Some? && slots[0].value in surplus then
      [None] + Incorporate(slots[1..], surplus - multiset{slots[0].value})
    else [slots[0]] + Incorporate(slots[1..], surplus)
  }

  /** The active cross cards lose exactly the surplus, as far as the cross holds it. */
  lemma {:induction false} IncorporateCards(slots: seq<Option<Card>>, surplus: multiset<Card>)
    ensures multiset(ActiveCross(Incorporate(slots, surplus))) == multiset(ActiveCross(slots)) - surplus
  {
    if slots != [] {
      var r := Incorporate(slots, surplus);
      assert r[1..] == Incorporate(slots[1..], if slots[0].Some? && slots[0].value in surplus then surplus - multiset{slots[0].value} else surplus);
      ActiveHead(slots);
      ActiveHead(r);
      if slots[0].Some? && slots[0].value in surplus {
        IncorporateCards(slots[1..], surplus - multiset{slots[0].value});
      } else {
        IncorporateCards(slots[1..], surplus);
      }
    }
  }

  lemma ActiveHead(slots: seq<Option<Card>>)
    requires slots != []
    ensures multiset(ActiveCross(slots)) ==
      (if slots[0].Some? then multiset{slots[0].value} else multiset{}) + multiset(ActiveCross(slots[1..]))
  {
  }

  /** One slot of the cross loop. */
  lemma IncorporateHead(slots: seq<Option<Card>>, surplus: multiset<Card>)
    requires slots != []
    ensures slots[0].Some? && slots[0].value in surplus ==>
      Incorporate(slots, surplus) == [None] + Incorporate(slots[1..], surplus - multiset{slots[0].value})
    ensures !(slots[0].Some? && slots[0].value in surplus) ==>
      Incorporate(slots, surplus) == [slots[0]] + Incorporate(slots[1..], surplus)
  {
  }

  method MarkIncorporated(slots: seq<Option<Card>>, surplus: multiset<Card>) returns (r: seq<Option<Card>>)
    ensures r == Incorporate(slots, surplus)
  {
    var remaining := surplus;
    r := slots;
    var i := 0;
    while i < |slots|
      invariant 0 <= i <= |slots| && |r| == |slots|
      invariant r[i..] == slots[i..]
      invariant r[..i] + Incorporate(slots[i..], remaining) == Incorporate(slots, surplus)
    {
      var next, left := r, remaining;
      if slots[i].Some? && remaining[slots[i].value] > 0 {
        var key := slots[i].value;
        left := remaining[key := remaining[key] - 1];
        next := r[i := None];
      }
      MarkStep(slots, surplus, i, r, remaining, next, left);
      r, remaining := next, left;
      i := i + 1;
    }
    assert r == r[..i];
  }

  /** A turn of the cross loop keeps its invariant. */
  lemma MarkStep(slots: seq<Option<Card>>, surplus: multiset<Card>, i: int,
                 r: seq<Option<Card>>, rem: multiset<Card>, next: seq<Option<Card>>, left: multiset<Card>)
    requires 0 <= i < |slots| && |r| == |slots| && r[i..] == slots[i..]
    requires r[..i] + Incorporate(slots[i..], rem) == Incorporate(slots, surplus)
    requires slots[i].Some? && rem[slots[i].value] > 0 ==>
      next == r[i := None] && left == rem[slots[i].value := rem[slots[i].value] - 1]
    requires !(slots[i].Some? && rem[slots[i].value] > 0) ==> next == r && left == rem
    ensures |next| == |slots| && next[i + 1..] == slots[i + 1..]
    ensures next[..i + 1] + Incorporate(slots[i + 1..], left) == Incorporate(slots, surplus)
  {
    if slots[i].Some? && rem[slots[i].value] > 0 {
      MarkTaken(slots, surplus, i, r, rem);
    } else {
      MarkKept(slots, surplus, i, r, rem);
    }
  }

  /** A turn of the cross loop that empties slot i keeps its invariant. */
  lemma MarkTaken(slots: seq<Option<Card>>, surplus: multiset<Card>, i: int,
                  r: seq<Option<Card>>, rem: multiset<Card>)
    requires 0 <= i < |slots| && |r| == |slots| && r[i..] == slots[i..]
    requires r[..i] + Incorporate(slots[i..], rem) == Incorporate(slots, surplus)
    requires slots[i].Some? && rem[slots[i].value] > 0
    ensures r[i := None][i + 1..] == slots[i + 1..]
    ensures r[i := None][..i + 1] + Incorporate(slots[i + 1..], rem[slots[i].value := rem[slots[i].value] - 1]) ==
      Incorporate(slots, surplus)
  {
    var x := slots[i].value;
    var rem' := rem[x := rem[x] - 1];
    assert rem' == rem - multiset{x};
    IncorporateHead(slots[i..], rem);
    assert slots[i..][1..] == slots[i + 1..];
    assert r[i := None][..i + 1] == r[..i] + [None];
    Associate(r[..i], [None], Incorporate(slots[i + 1..], rem'));
  }

  /** A turn of the cross loop that keeps slot i keeps its invariant. */
  lemma MarkKept(slots: seq<Option<Card>>, surplus: multiset<Card>, i: int,
                 r: seq<Option<Card>>, rem: multiset<Card>)
    requires 0 <= i < |slots| && |r| == |slots| && r[i..] == slots[i..]
    requires r[..i] + Incorporate(slots[i..], rem) == Incorporate(slots, surplus)
    requires !(slots[i].Some? && rem[slots[i].value] > 0)
    ensures r[i + 1..] == slots[i + 1..]
    ensures r[..i + 1] + Incorporate(slots[i + 1..], rem) == Incorporate(slots, surplus)
  {
    IncorporateHead(slots[i..], rem);
    assert slots[i..][1..] == slots[i + 1..];
    assert r[..i + 1] == r[..i] + [slots[i]];
    Associate(r[..i], [slots[i]], Incorporate(slots[i + 1..], rem));
  }

  lemma Associate<T>(a: seq<T>, b: seq<T>, c: seq<T>)
    ensures a + b + c == a + (b + c)
  {
  }

  // ----- the game -----

  /** The cards in both hands. */
  function HandCards(hands: map<Player, seq<Card>>): multiset<Card>
    requires Human in hands && Bot in hands
  {
    multiset(hands[Human]) + multiset(hands[Bot])
  }

  /** Replacing one hand replaces its cards and keeps the other's. */
  lemma HandCardsUpdate(hands: map<Player, seq<Card>>, p: Player, h: seq<Card>)
    requires Human in hands && Bot in hands
    ensures HandCards(hands[p := h]) + multiset(hands[p]) == HandCards(hands) + multiset(h)
  {
    var h' := hands[p := h];
    assert h'[p] == h && h'[Other(p)] == hands[Other(p)];
  }

  /** A snapshot of a GameState. */
  datatype Game = Game(deck: seq<Card>, hands: map<Player, seq<Card>>, floor: seq<seq<Card>>,
                       cross: seq<Option<Card>>, current: Player, gameOver: bool, winner: Option<Player>)

  /** Both players have a hand and the cross has its four slots. */
  predicate WellFormed(g: Game)
  {
    Human in g.hands && Bot in g.hands && |g.cross| == 4
  }

  /** Every card of the game: deck, both hands, the floor and the active cross. */
  function GameCards(g: Game): multiset<Card>
    requires Human in g.hands && Bot in g.hands
  {
    multiset(g.deck) + HandCards(g.hands) + Bag(g.floor) + multiset(ActiveCross(g.cross))
  }

  /** new_game on a shuffled deck: five cards each, then four cross cards, from the end. */
  function Dealt(shuffled: seq<Card>): (g: Game)
    requires |shuffled| == 104
  {
    Game(shuffled[..90],
         map[Human := Popped(shuffled, 5), Bot := Popped(shuffled[..99], 5)],
         [],
         Slots(Popped(shuffled[..94], 4)),
         Human, false, None)
  }

  /** The cross laid out from a list of cards, every slot filled. */
  function Slots(cards: seq<Card>): (r: seq<Option<Card>>)
    ensures |r| == |cards| && forall i :: 0 <= i < |cards| ==> r[i] == Some(cards[i])
  {
    if cards == [] then [] else [Some(cards[0])] + Slots(cards[1..])
  }

  /** A cross whose every slot holds a card shows exactly those cards. */
  lemma {:induction false} ActiveWhenFull(cards: seq<Card>)
    ensures ActiveCross(Slots(cards)) == cards
  {
    if cards != [] {
      ActiveWhenFull(cards[1..]);
      assert Slots(cards)[1..] == Slots(cards[1..]);
      assert cards == [cards[0]] + cards[1..];
    }
  }

  /** Popping from a prefix of the list pops the cards just below its end. */
  lemma PoppedFrom(s: seq<Card>, k: nat, n: nat)
    requires n <= k <= |s|
    ensures forall i :: 0 <= i < n ==> Popped(s[..k], n)[i] == s[k - 1 - i]
  {
    var p := Popped(s[..k], n);
    forall i | 0 <= i < n ensures p[i] == s[k - 1 - i] {
      assert s[..k][k - 1 - i] == s[k - 1 - i];
    }
  }

  /**
   * The dealt game, card for card: the human has the last five cards, the
   * bot the five before, the cross the four before, the deck the first
   * ninety; the floor is empty and the human moves first.
   */
  lemma DealtOrder(shuffled: seq<Card>)
    requires |shuffled| == 104
    ensures WellFormed(Dealt(shuffled)) && Dealt(shuffled).deck == shuffled[..90]
    ensures forall i :: 0 <= i < 5 ==>
      Dealt(shuffled).hands[Human][i] == shuffled[103 - i] && Dealt(shuffled).hands[Bot][i] == shuffled[98 - i]
    ensures forall i :: 0 <= i < 4 ==> Dealt(shuffled).cross[i] == Some(shuffled[93 - i])
    ensures Dealt(shuffled).floor == [] && Dealt(shuffled).current == Human
    ensures !Dealt(shuffled).gameOver && Dealt(shuffled).winner == None
  {
    PoppedFrom(shuffled, 99, 5);
    PoppedFrom(shuffled, 94, 4);
  }

  /** Dealing keeps every card of the shuffled deck, so a full pair of decks stays full. */
  lemma DealtCards(shuffled: seq<Card>)
    requires |shuffled| == 104
    ensures WellFormed(Dealt(shuffled)) && GameCards(Dealt(shuffled)) == multiset(shuffled)
  {
    var h, b, c := Popped(shuffled, 5), Popped(shuffled[..99], 5), Popped(shuffled[..94], 4);
    var hands := map[Human := h, Bot := b];
    assert HandCards(hands) == multiset(h) + multiset(b) by {
      assert hands[Human] == h && hands[Bot] == b;
    }
    PoppedThrice(shuffled);
    ActiveWhenFull(c);
  }

  /** The three pops of new_game leave the first ninety cards. */
  lemma PoppedThrice(shuffled: seq<Card>)
    requires |shuffled| == 104
    ensures multiset(shuffled[..90]) + (multiset(Popped(shuffled, 5)) + multiset(Popped(shuffled[..99], 5))) +
      multiset(Popped(shuffled[..94], 4)) == multiset(shuffled)
  {
    var r1, r2 := shuffled[..99], shuffled[..94];
    PoppedCards(shuffled, 5);
    PoppedCards(r1, 5);
    PoppedCards(r2, 4);
    assert r1[..94] == r2 && r2[..90] == shuffled[..90];
  }

  /** A game dealt from the shuffled two decks holds every card exactly twice. */
  lemma DealtFull()
    ensures forall shuffled :: |shuffled| == 104 && multiset(shuffled) == multiset(TwoDecks()) ==>
      FullDeck(GameCards(Dealt(shuffled)))
  {
    TwoDecksFull();
    forall shuffled | |shuffled| == 104 && multiset(shuffled) == multiset(TwoDecks())
      ensures FullDeck(GameCards(Dealt(shuffled)))
    {
      DealtCards(shuffled);
    }
  }

  /** draw_card: the game after the player draws. */
  function Drawn(g: Game, p: Player): Game
    requires WellFormed(g)
  {
    if g.deck == [] then g
    else g.(deck := g.deck[..|g.deck| - 1],
            hands := g.hands[p := g.hands[p] + [g.deck[|g.deck| - 1]]],
            current := Other(p))
  }

  /** Drawing keeps every card of the game. */
  lemma DrawnKeepsCards(g: Game, p: Player)
    requires WellFormed(g)
    ensures WellFormed(Drawn(g, p)) && GameCards(Drawn(g, p)) == GameCards(g)
  {
    if g.deck != [] {
      var top := g.deck[|g.deck| - 1];
      var g' := Drawn(g, p);
      assert g'.deck == g.deck[..|g.deck| - 1] && g'.hands == g.hands[p := g.hands[p] + [top]];
      MultisetSnoc(g.deck);
      HandCardsUpdate(g.hands, p, g.hands[p] + [top]);
      DrawBalance(multiset(g'.deck), HandCards(g'.hands), multiset(g.deck), HandCards(g.hands),
                  multiset(g.hands[p]), multiset{top}, Bag(g.floor), multiset(ActiveCross(g.cross)));
    }
  }

  /** The deck's last card moves to a hand. */
  lemma DrawBalance(d': multiset<Card>, H': multiset<Card>, d: multiset<Card>, H: multiset<Card>,
                    h: multiset<Card>, t: multiset<Card>, B: multiset<Card>, A: multiset<Card>)
    requires d == d' + t && H' + h == H + (h + t)
    ensures d' + H' + B + A == d + H + B + A
  {
    forall c ensures (d' + H' + B + A)[c] == (d + H + B + A)[c] {
      assert (H' + h)[c] == (H + (h + t))[c];
    }
  }

  /**
   * Drawing from an empty deck changes nothing; otherwise one card moves from
   * the deck to the end of the player's hand, the other hand is untouched
   * and the turn passes.
   */
  lemma DrawnMovesOne(g: Game, p: Player)
    requires WellFormed(g)
    ensures g.deck == [] ==> Drawn(g, p) == g
    ensures g.deck != [] ==>
      |Drawn(g, p).deck| == |g.deck| - 1 && |Drawn(g, p).hands[p]| == |g.hands[p]| + 1 &&
      Drawn(g, p).hands[p][..|g.hands[p]|] == g.hands[p] &&
      Drawn(g, p).hands[Other(p)] == g.hands[Other(p)] && Drawn(g, p).current == Other(p)
    ensures Drawn(g, p).floor == g.floor && Drawn(g, p).cross == g.cross
  {
    if g.deck != [] {
      var h := g.hands[p] + [g.deck[|g.deck| - 1]];
      assert h[..|g.hands[p]|] == g.hands[p];
    }
  }

  /** apply_play: the game after the player's play is carried out. */
  function Applied(g: Game, p: Player, newFloor: seq<seq<Card>>, played: seq<Card>): Game
    requires WellFormed(g)
  {
    assert p == Human || p == Bot;
    var newHand := Without(g.hands[p], multiset(played));
    var g' := g.(hands := g.hands[p := newHand],
                 cross := Incorporate(g.cross, Bag(newFloor) - Bag(g.floor) - multiset(played)),
                 floor := newFloor);
    if |newHand| == 0 then g'.(gameOver := true, winner := Some(p))
    else g'.(current := Other(p))
  }

  /** What acceptance says about the counters of the play. */
  lemma AcceptedCounts(hand: seq<Card>, floor: seq<seq<Card>>, cross: seq<Option<Card>>,
                       newFloor: seq<seq<Card>>, played: seq<Card>)
    requires ValidatePlay(hand, floor, cross, newFloor, played) == Accept
    ensures played != [] && multiset(played) <= multiset(hand)
    ensures Bag(floor) + multiset(played) <= Bag(newFloor)
    ensures Bag(newFloor) <= Bag(floor) + multiset(played) + multiset(ActiveCross(cross))
  {
    ValidatePlayAccepts(hand, floor, cross, newFloor, played);
  }

  /** The counters of an accepted play balance: what leaves hand and cross arrives on the floor. */
  lemma CountsBalance(H: multiset<Card>, P: multiset<Card>, O: multiset<Card>, N: multiset<Card>,
                      C: multiset<Card>)
    requires P <= H && O + P <= N && N <= O + P + C
    ensures (H - P) + (N + (C - (N - O - P))) == H + (O + C)
  {
  }

  /** The hand lemma and the counter lemma, combined over both hands. */
  lemma HandsBalance(hands: map<Player, seq<Card>>, p: Player, W: seq<Card>, F: multiset<Card>,
                     F': multiset<Card>)
    requires Human in hands && Bot in hands
    requires multiset(W) + F' == multiset(hands[p]) + F
    ensures HandCards(hands[p := W]) + F' == HandCards(hands) + F
  {
    var A, B := HandCards(hands[p := W]), HandCards(hands);
    HandCardsUpdate(hands, p, W);
    forall c ensures (A + F')[c] == (B + F)[c] {
      assert (A + multiset(hands[p]))[c] == (B + multiset(W))[c];
      assert (multiset(W) + F')[c] == (multiset(hands[p]) + F)[c];
    }
  }

  /** Regrouping a sum of four counters. */
  lemma Regroup(d: multiset<Card>, X: multiset<Card>, Y: multiset<Card>, Z: multiset<Card>,
                X': multiset<Card>, Y': multiset<Card>, Z': multiset<Card>)
    requires X + (Y + Z) == X' + (Y' + Z')
    ensures d + X + Y + Z == d + X' + Y' + Z'
  {
    assert d + X + Y + Z == d + (X + (Y + Z));
    assert d + X' + Y' + Z' == d + (X' + (Y' + Z'));
  }

  /** The fields apply_play sets. */
  lemma AppliedFields(g: Game, p: Player, newFloor: seq<seq<Card>>, played: seq<Card>)
    requires WellFormed(g)
    ensures Applied(g, p, newFloor, played).hands == g.hands[p := Without(g.hands[p], multiset(played))]
    ensures Applied(g, p, newFloor, played).cross ==
      Incorporate(g.cross, Bag(newFloor) - Bag(g.floor) - multiset(played))
    ensures Applied(g, p, newFloor, played).floor == newFloor && Applied(g, p, newFloor, played).deck == g.deck
    ensures WellFormed(Applied(g, p, newFloor, played))
    ensures |Without(g.hands[p], multiset(played))| == 0 ==>
      Applied(g, p, newFloor, played).current == g.current &&
      Applied(g, p, newFloor, played).gameOver && Applied(g, p, newFloor, played).winner == Some(p)
    ensures |Without(g.hands[p], multiset(played))| != 0 ==>
      Applied(g, p, newFloor, played).current == Other(p) &&
      Applied(g, p, newFloor, played).gameOver == g.gameOver && Applied(g, p, newFloor, played).winner == g.winner
  {
  }

  /**
   * An accepted play, carried out, keeps every card of the game: the hand
   * loses the play, the floor gains the play and the incorporated cross
   * cards, and the cross loses those.
   */
  lemma AppliedKeepsCards(g: Game, p: Player, newFloor: seq<seq<Card>>, played: seq<Card>)
    requires WellFormed(g)
    requires ValidatePlay(g.hands[p], g.floor, g.cross, newFloor, played) == Accept
    ensures WellFormed(Applied(g, p, newFloor, played))
    ensures GameCards(Applied(g, p, newFloor, played)) == GameCards(g)
  {
    var H, P := multiset(g.hands[p]), multiset(played);
    var O, N := Bag(g.floor), Bag(newFloor);
    var C := multiset(ActiveCross(g.cross));
    var W := Without(g.hands[p], P);
    var cross' := Incorporate(g.cross, N - O - P);
    AcceptedCounts(g.hands[p], g.floor, g.cross, newFloor, played);
    AppliedFields(g, p, newFloor, played);
    WithoutCards(g.hands[p], P);
    IncorporateCards(g.cross, N - O - P);
    CountsBalance(H, P, O, N, C);
    HandsBalance(g.hands, p, W, O + C, N + multiset(ActiveCross(cross')));
    Regroup(multiset(g.deck), HandCards(g.hands[p := W]), N, multiset(ActiveCross(cross')),
            HandCards(g.hands), O, C);
  }

  /**
   * After a play of cards the hand holds, the player's hand has lost exactly
   * the played cards and the other hand is untouched.
   */
  lemma AppliedHands(g: Game, p: Player, newFloor: seq<seq<Card>>, played: seq<Card>)
    requires WellFormed(g) && multiset(played) <= multiset(g.hands[p])
    ensures multiset(Applied(g, p, newFloor, played).hands[p]) == multiset(g.hands[p]) - multiset(played)
    ensures |Applied(g, p, newFloor, played).hands[p]| == |g.hands[p]| - |played|
    ensures Applied(g, p, newFloor, played).hands[Other(p)] == g.hands[Other(p)]
  {
    AppliedFields(g, p, newFloor, played);
    WithoutAll(g.hands[p], multiset(played));
  }

  /**
   * The player wins exactly when the play uses up the whole hand, and
   * otherwise the turn passes.
   */
  lemma AppliedTurn(g: Game, p: Player, newFloor: seq<seq<Card>>, played: seq<Card>)
    requires WellFormed(g) && multiset(played) <= multiset(g.hands[p])
    ensures multiset(played) == multiset(g.hands[p]) ==>
      Applied(g, p, newFloor, played).gameOver && Applied(g, p, newFloor, played).winner == Some(p) &&
      Applied(g, p, newFloor, played).current == g.current
    ensures multiset(played) != multiset(g.hands[p]) ==>
      Applied(g, p, newFloor, played).current == Other(p) &&
      Applied(g, p, newFloor, played).gameOver == g.gameOver &&
      Applied(g, p, newFloor, played).winner == g.winner
  {
    WithoutAll(g.hands[p], multiset(played));
  }

  /** Taking out copies the hand holds: the hand shrinks by their number and is empty exactly when all went. */
  lemma WithoutAll(hand: seq<Card>, P: multiset<Card>)
    requires P <= multiset(hand)
    ensures multiset(Without(hand, P)) == multiset(hand) - P
    ensures |Without(hand, P)| == |hand| - |P|
    ensures |Without(hand, P)| == 0 <==> P == multiset(hand)
  {
    var H, W := multiset(hand), Without(hand, P);
    WithoutCards(hand, P);
    SubMultisetSize(P, H);
    assert |W| == |multiset(W)|;
    if P != H {
      assert H - P != multiset{};
    }
  }

  /** Taking a sub-multiset out removes its size. */
  lemma SubMultisetSize(P: multiset<Card>, H: multiset<Card>)
    requires P <= H
    ensures |H - P| == |H| - |P|
  {
    assert H == (H - P) + P;
  }

  /** The steps of apply_play on the game's values. */
  method PlayOn(g: Game, player: Player, newFloor: seq<seq<Card>>, played: seq<Card>) returns (g': Game)
    requires WellFormed(g)
    ensures g' == Applied(g, player, newFloor, played)
  {
    AppliedFields(g, player, newFloor, played);
    var newHand := RemovePlayed(g.hands[player], played);
    var newCount := CardCounter(Concat(newFloor));
    var oldCount := CardCounter(Concat(g.floor));
    var playedCount := CardCounter(played);
    var newCross := MarkIncorporated(g.cross, newCount - oldCount - playedCount);
    g' := g.(hands := g.hands[player := newHand], cross := newCross, floor := newFloor);
    if |newHand| == 0 {
      g' := g'.(gameOver := true, winner := Some(player));
      return;
    }
    g' := g'.(current := Other(player));
  }

  class GameState {
    var deck: seq<Card>
    var hands: map<Player, seq<Card>>
    var floor: seq<seq<Card>>
    var cross: seq<Option<Card>>
    var current: Player
    var gameOver: bool
    var winner: Option<Player>

    /** The state as a value. */
    ghost function State(): Game
      reads this
    {
      Game(deck, hands, floor, cross, current, gameOver, winner)
    }

    ghost predicate Valid()
      reads this
    {
      WellFormed(State())
    }

    /**
     * new_game on a shuffled pair of decks: five cards to the human, five to
     * the bot and four face-up cross cards, each dealt from the end of the list.
     */
    constructor NewGame(shuffled: seq<Card>)
      requires |shuffled| == 104
      ensures Valid() && State() == Dealt(shuffled)
    {
      var human, bot, crossCards, r1, r2, rest;
      human, r1 := Deal(shuffled, 5);
      bot, r2 := Deal(r1, 5);
      crossCards, rest := Deal(r2, 4);
      assert r1 == shuffled[..99] && r2 == shuffled[..94] && rest == shuffled[..90];
      deck, hands, floor := rest, map[Human := human, Bot := bot], [];
      cross := Slots(crossCards);
      current, gameOver, winner := Human, false, None;
    }

    /** draw_card: the drawn card, if the deck had one. */
    method DrawCard(player: Player) returns (drawn: Option<Card>)
      requires Valid()
      modifies this
      ensures Valid() && State() == Drawn(old(State()), player)
      ensures drawn == if old(deck) == [] then None else Some(old(deck)[|old(deck)| - 1])
    {
      if deck == [] {
        return None;
      }
      var card := deck[|deck| - 1];
      deck := deck[..|deck| - 1];
      hands := hands[player := hands[player] + [card]];
      current := Other(player);
      drawn := Some(card);
    }

    /**
     * apply_play: the hand loses the played copies, cross slots whose cards
     * the new floor needs beyond the old floor and the play are emptied, the
     * floor becomes the new floor, and either the player has won or the turn
     * passes.
     */
    method ApplyPlay(player: Player, newFloor: seq<seq<Card>>, played: seq<Card>)
      requires Valid()
      modifies this
      ensures Valid() && State() == Applied(old(State()), player, newFloor, played)
    {
      var g := Game(deck, hands, floor, cross, current, gameOver, winner);
      var g' := PlayOn(g, player, newFloor, played);
      deck, hands, floor, cross := g'.deck, g'.hands, g'.floor, g'.cross;
      current, gameOver, winner := g'.current, g'.gameOver, g'.winner;
    }
  }
}
