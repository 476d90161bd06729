// Playing cards: the value type, its two text forms (the display text with a
// suit symbol and the ASCII code such as "10D"), the parser for codes and the
// display order of a group.
module Cards {
  import opened Util
  import opened Sorting

  /** The four suits, in the order of the SUITS tuple (S, H, D, C). */
  datatype Suit = Spades | Hearts | Diamonds | Clubs

  /** 1 is the ace, 11 to 13 are jack, queen and king. */
  type Rank = r: int | 1 <= r <= 13 witness 1

  datatype Card = Card(rank: Rank, suit: Suit)

  datatype ParseError =
    | TooShort          // fewer than two characters once trimmed
    | NotANumber        // the rank part is not A/J/Q/K and not a decimal number
    | RankOutOfRange    // a decimal rank outside 1..13
    | BadSuit           // the last character is not one of S, H, D, C

  const SUITS: seq<Suit> := [Spades, Hearts, Diamonds, Clubs]

  /** Position of a suit in SUITS: the column of the pool's count matrix. */
  function SuitIndex(s: Suit): (i: int)
    ensures 0 <= i < 4 && SUITS[i] == s
  {
    match s
    case Spades => 0
    case Hearts => 1
    case Diamonds => 2
    case Clubs => 3
  }

  function SuitAt(i: int): (s: Suit)
    requires 0 <= i < 4
    ensures SuitIndex(s) == i
  {
    SUITS[i]
  }

  function SuitLetter(s: Suit): char
  {
    match s
    case Spades => 'S'
    case Hearts => 'H'
    case Diamonds => 'D'
    case Clubs => 'C'
  }

  function SuitSymbol(s: Suit): char
  {
    match s
    case Spades => '♠'
    case Hearts => '♥'
    case Diamonds => '♦'
    case Clubs => '♣'
  }

  /** The suit whose letter is ch, if any. */
  function SuitOfLetter(ch: char): (r: Option<Suit>)
    ensures r.Some? <==> ch in "SHDC"
    ensures r.Some? ==> SuitLetter(r.value) == ch
  {
    if ch == 'S' then Some(Spades)
    else if ch == 'H' then Some(Hearts)
    else if ch == 'D' then Some(Diamonds)
    else if ch == 'C' then Some(Clubs)
    else None
  }

  // ----- decimal numbers -----

  function DigitChar(d: int): char
    requires 0 <= d < 10
  {
    (48 + d) as char
  }

  predicate IsDigit(ch: char)
  {
    '0' <= ch <= '9'
  }

  function DigitValue(ch: char): int
    requires IsDigit(ch)
  {
    ch as int - 48
  }

  /** Decimal text of n, without leading zeros: Python's str(n). */
  function NatToString(n: nat): (s: string)
    ensures |s| >= 1 && forall i :: 0 <= i < |s| ==> IsDigit(s[i])
  {
    if n < 10 then [DigitChar(n)] else NatToString(n / 10) + [DigitChar(n % 10)]
  }

  function DigitsValue(s: string): nat
    requires forall i :: 0 <= i < |s| ==> IsDigit(s[i])
  {
    if s == [] then 0 else DigitsValue(s[..|s| - 1]) * 10 + DigitValue(s[|s| - 1])
  }

  /** int(s) for a non-empty string of decimal digits; anything else is not a number. */
  function ParseDecimal(s: string): Option<nat>
  {
    if s != [] && forall i :: 0 <= i < |s| ==> IsDigit(s[i]) then Some(DigitsValue(s)) else None
  }

  lemma {:induction false} DecimalRoundTrip(n: nat)
    ensures ParseDecimal(NatToString(n)) == Some(n)
  {
    if n >= 10 {
      DecimalRoundTrip(n / 10);
      var s := NatToString(n);
      assert s[..|s| - 1] == NatToString(n / 10);
      assert DigitValue(s[|s| - 1]) == n % 10;
      assert DigitsValue(s) == DigitsValue(NatToString(n / 10)) * 10 + n % 10;
    }
  }

  // ----- rank names -----

  /** RANK_NAMES.get(rank, str(rank)). */
  function RankName(r: Rank): string
  {
    if r == 1 then "A"
    else if r == 11 then "J"
    else if r == 12 then "Q"
    else if r == 13 then "K"
    else NatToString(r)
  }

  /**
   * The rank part of a code: a letter name from the rank map, matched
   * exactly, or else int(), which ignores white space around the digits.
   */
  function RankOfText(t: string): Option<int>
  {
    if t == "A" then Some(1)
    else if t == "J" then Some(11)
    else if t == "Q" then Some(12)
    else if t == "K" then Some(13)
    else match ParseDecimal(Strip(t))
      case Some(n) => Some(n)
      case None => None
  }

  lemma RankNameRoundTrip(r: Rank)
    ensures RankOfText(RankName(r)) == Some(r as int)
  {
    if r !in {1, 11, 12, 13} {
      DecimalRoundTrip(r);
      var s := NatToString(r);
      assert IsDigit(s[0]);
      assert IsDigit(s[|s| - 1]);
      TrimOfClean(s);
    }
  }

  /** Card.__str__: the rank name followed by the suit symbol. */
  function CardText(c: Card): (s: string)
    ensures |s| >= 2 && s[|s| - 1] == SuitSymbol(c.suit)
    ensures s[..|s| - 1] == RankName(c.rank)
  {
    RankName(c.rank) + [SuitSymbol(c.suit)]
  }

  /** Two different cards never print the same. */
  lemma CardTextInjective(a: Card, b: Card)
    requires CardText(a) == CardText(b)
    ensures a == b
  {
    var s := CardText(a);
    RankNameRoundTrip(a.rank);
    RankNameRoundTrip(b.rank);
    assert RankName(a.rank) == s[..|s| - 1] == RankName(b.rank);
    assert SuitSymbol(a.suit) == SuitSymbol(b.suit);
  }

  /** The code a card is written in for the command-line solver: rank name and suit letter. */
  function CardCode(c: Card): (s: string)
    ensures |s| >= 2 && s[|s| - 1] == SuitLetter(c.suit)
  {
    RankName(c.rank) + [SuitLetter(c.suit)]
  }

  // ----- normalisation of input text -----

  /** The ASCII characters str.isspace() accepts. */
  predicate IsSpace(ch: char)
  {
    ch == ' ' || ch == '\t' || ch == '\n' || ch == '\r' || ch == '\U{B}' || ch == '\U{C}' || '\U{1C}' <= ch <= '\U{1F}'
  }

  function TrimLeft(s: string): (r: string)
    ensures |r| <= |s|
    ensures r == [] || !IsSpace(r[0])
  {
    if s != [] && IsSpace(s[0]) then TrimLeft(s[1..]) else s
  }

  function TrimRight(s: string): (r: string)
    ensures |r| <= |s|
    ensures r == [] || !IsSpace(r[|r| - 1])
  {
    if s != [] && IsSpace(s[|s| - 1]) then TrimRight(s[..|s| - 1]) else s
  }

  /** str.strip() over the ASCII white space of IsSpace. */
  function Strip(s: string): string
  {
    TrimRight(TrimLeft(s))
  }

  function UpperChar(ch: char): char
  {
    if 'a' <= ch <= 'z' then (ch as int - 32) as char else ch
  }

  /** str.upper() over ASCII letters. */
  function Upper(s: string): (r: string)
    ensures |r| == |s| && forall i :: 0 <= i < |s| ==> r[i] == UpperChar(s[i])
  {
    seq(|s|, i requires 0 <= i < |s| => UpperChar(s[i]))
  }

  function Normalize(s: string): string
  {
    Upper(Strip(s))
  }

  /** parse_card: trim, upper-case, split off the last character as the suit. */
  function ParseCard(text: string): (r: Result<Card, ParseError>)
    ensures r == Err(TooShort) <==> |Normalize(text)| < 2
    ensures r.Ok? ==> var u := Normalize(text);
      u[|u| - 1] == SuitLetter(r.value.suit) && RankOfText(u[..|u| - 1]) == Some(r.value.rank as int)
    ensures var u := Normalize(text); |u| >= 2 ==>
      var rank := RankOfText(u[..|u| - 1]);
      (r == Err(NotANumber) <==> rank.None?) &&
      (r == Err(RankOutOfRange) <==> rank.Some? && !(1 <= rank.value <= 13)) &&
      (r == Err(BadSuit) <==> rank.Some? && 1 <= rank.value <= 13 && u[|u| - 1] !in "SHDC")
  {
    ParseCode(Normalize(text))
  }

  /** parse_card after trimming and upper-casing. */
  function ParseCode(u: string): Result<Card, ParseError>
  {
    if |u| < 2 then Err(TooShort)
    else
      var suitChar := u[|u| - 1];
      match RankOfText(u[..|u| - 1])
      case None => Err(NotANumber)
      case Some(rank) =>
        if !(1 <= rank <= 13) then Err(RankOutOfRange)
        else match SuitOfLetter(suitChar)
          case None => Err(BadSuit)
          case Some(suit) => Ok(Card(rank, suit))
  }

  lemma {:induction false} TrimOfClean(s: string)
    requires s == [] || (!IsSpace(s[0]) && !IsSpace(s[|s| - 1]))
    ensures Strip(s) == s
  {
  }

  lemma CodeHasNoSpaceOrLower(c: Card)
    ensures forall i :: 0 <= i < |CardCode(c)| ==> !IsSpace(CardCode(c)[i]) && UpperChar(CardCode(c)[i]) == CardCode(c)[i]
  {
    var s := CardCode(c);
    var name := RankName(c.rank);
    assert s == name + [SuitLetter(c.suit)];
    forall i | 0 <= i < |s| ensures !IsSpace(s[i]) && UpperChar(s[i]) == s[i] {
      if i < |name| {
        assert s[i] == name[i];
        if c.rank !in {1, 11, 12, 13} {
          assert IsDigit(name[i]);
        }
      }
    }
  }

  /** Writing a card as a code and parsing it back gives the same card. */
  lemma ParseCardRoundTrip(c: Card)
    ensures ParseCard(CardCode(c)) == Ok(c)
  {
    var s := CardCode(c);
    CodeHasNoSpaceOrLower(c);
    TrimOfClean(s);
    assert Upper(s) == s;
    assert Normalize(s) == s;
    ParseCodeOfCode(c);
  }

  lemma ParseCodeOfCode(c: Card)
    ensures ParseCode(CardCode(c)) == Ok(c)
  {
    var s := CardCode(c);
    assert s[..|s| - 1] == RankName(c.rank);
    RankNameRoundTrip(c.rank);
  }

  lemma {:induction false} TrimLeftPadding(w: string, t: string)
    requires forall i :: 0 <= i < |w| ==> IsSpace(w[i])
    ensures TrimLeft(w + t) == TrimLeft(t)
  {
    if w != [] {
      assert IsSpace((w + t)[0]);
      assert (w + t)[1..] == w[1..] + t;
      forall i | 0 <= i < |w[1..]| ensures IsSpace(w[1..][i]) {
        assert w[1..][i] == w[i + 1];
      }
      TrimLeftPadding(w[1..], t);
    } else {
      assert w + t == t;
    }
  }

  lemma {:induction false} TrimRightPadding(t: string, w: string)
    requires forall i :: 0 <= i < |w| ==> IsSpace(w[i])
    ensures TrimRight(t + w) == TrimRight(t)
  {
    if w != [] {
      assert IsSpace((t + w)[|t + w| - 1]);
      assert (t + w)[..|t + w| - 1] == t + w[..|w| - 1];
      var front := w[..|w| - 1];
      forall i | 0 <= i < |front| ensures IsSpace(front[i]) {
        assert front[i] == w[i];
      }
      TrimRightPadding(t, front);
    } else {
      assert t + w == t;
    }
  }

  lemma {:induction false} TrimLeftOfRightPadded(t: string, w: string)
    requires forall i :: 0 <= i < |w| ==> IsSpace(w[i])
    ensures exists w' :: (forall i :: 0 <= i < |w'| ==> IsSpace(w'[i])) && TrimLeft(t + w) == TrimLeft(t) + w'
  {
    if t == [] {
      TrimLeftPadding(w, []);
      assert t + w == w + [];
      assert TrimLeft(t + w) == TrimLeft(t) + [];
    } else if IsSpace(t[0]) {
      assert (t + w)[1..] == t[1..] + w;
      TrimLeftOfRightPadded(t[1..], w);
    } else {
      assert TrimLeft(t + w) == TrimLeft(t) + w;
    }
  }

  /** White space around a code does not change what it parses to. */
  lemma ParseCardIgnoresPadding(w1: string, text: string, w2: string)
    requires forall i :: 0 <= i < |w1| ==> IsSpace(w1[i])
    requires forall i :: 0 <= i < |w2| ==> IsSpace(w2[i])
    ensures ParseCard(w1 + text + w2) == ParseCard(text)
  {
    assert w1 + text + w2 == w1 + (text + w2);
    TrimLeftPadding(w1, text + w2);
    TrimLeftOfRightPadded(text, w2);
    var w' :| (forall i :: 0 <= i < |w'| ==> IsSpace(w'[i])) && TrimLeft(text + w2) == TrimLeft(text) + w';
    TrimRightPadding(TrimLeft(text), w');
    assert Normalize(w1 + text + w2) == Normalize(text);
  }

  /** The ASCII separators \x1c to \x1f count as white space: "\x1c7S" is the seven of spades. */
  lemma ParseCardSeparatorPadding(ch: char, c: Card)
    requires '\U{1C}' <= ch <= '\U{1F}'
    ensures ParseCard([ch] + CardCode(c)) == Ok(c)
  {
    ParseCardIgnoresPadding([ch], CardCode(c), []);
    assert [ch] + CardCode(c) + [] == [ch] + CardCode(c);
    ParseCardRoundTrip(c);
  }

  /**
   * int() ignores white space between a number and the suit letter, so
   * "10 D" is the ten of diamonds; a letter rank must match exactly, so
   * "K D" is not a number.
   */
  lemma ParseCardSpaceBeforeSuit(r: Rank, w: string, s: Suit)
    requires forall i :: 0 <= i < |w| ==> IsSpace(w[i])
    ensures ParseCard(RankName(r) + w + [SuitLetter(s)]) ==
      if r in {1, 11, 12, 13} && w != [] then Err(NotANumber) else Ok(Card(r, s))
  {
    SpacedCodeIsNormal(r, w, s);
    SpacedCodeParses(r, w, s);
  }

  lemma SpacedCodeParses(r: Rank, w: string, s: Suit)
    requires forall i :: 0 <= i < |w| ==> IsSpace(w[i])
    ensures ParseCode(RankName(r) + w + [SuitLetter(s)]) ==
      if r in {1, 11, 12, 13} && w != [] then Err(NotANumber) else Ok(Card(r, s))
  {
    var x := RankName(r) + w + [SuitLetter(s)];
    assert x[..|x| - 1] == RankName(r) + w && x[|x| - 1] == SuitLetter(s);
    assert SuitOfLetter(SuitLetter(s)) == Some(s);
    if r in {1, 11, 12, 13} {
      SpacedLetterRank(r, w);
    } else {
      SpacedNumberRank(r, w);
    }
  }

  lemma SpacedCodeIsNormal(r: Rank, w: string, s: Suit)
    requires forall i :: 0 <= i < |w| ==> IsSpace(w[i])
    ensures Normalize(RankName(r) + w + [SuitLetter(s)]) == RankName(r) + w + [SuitLetter(s)]
  {
    var name := RankName(r);
    var x := name + w + [SuitLetter(s)];
    CodeHasNoSpaceOrLower(Card(r, s));
    assert CardCode(Card(r, s)) == name + [SuitLetter(s)];
    assert x[0] == name[0] && name[0] == CardCode(Card(r, s))[0];
    TrimOfClean(x);
    forall i | 0 <= i < |x| ensures UpperChar(x[i]) == x[i] {
      if i < |name| {
        assert x[i] == CardCode(Card(r, s))[i];
      } else if i < |name| + |w| {
        assert x[i] == w[i - |name|];
      }
    }
  }

  lemma SpacedLetterRank(r: Rank, w: string)
    requires r in {1, 11, 12, 13} && forall i :: 0 <= i < |w| ==> IsSpace(w[i])
    ensures RankOfText(RankName(r) + w) == if w != [] then None else Some(r as int)
  {
    var name := RankName(r);
    if w == [] {
      assert name + w == name;
    } else {
      assert |name + w| >= 2;
      TrimRightPadding(name, w);
      assert TrimLeft(name + w)[0] == name[0];
    }
  }

  lemma SpacedNumberRank(r: Rank, w: string)
    requires r !in {1, 11, 12, 13} && forall i :: 0 <= i < |w| ==> IsSpace(w[i])
    ensures RankOfText(RankName(r) + w) == Some(r as int)
  {
    var name := RankName(r);
    TrimRightPadding(name, w);
    DecimalRoundTrip(r);
    assert IsDigit(name[0]) && IsDigit(name[|name| - 1]);
    assert (name + w)[0] == name[0];
    TrimOfClean(name);
    assert TrimLeft(name + w) == name + w;
  }

  lemma UpperIdempotent(s: string)
    ensures Upper(Upper(s)) == Upper(s)
  {
  }

  lemma {:induction false} TrimCommutesWithUpper(s: string)
    ensures TrimLeft(Upper(s)) == Upper(TrimLeft(s))
    ensures TrimRight(Upper(s)) == Upper(TrimRight(s))
  {
    if s != [] {
      assert Upper(s)[1..] == Upper(s[1..]);
      assert Upper(s)[..|s| - 1] == Upper(s[..|s| - 1]);
      TrimCommutesWithUpper(s[1..]);
      TrimCommutesWithUpper(s[..|s| - 1]);
    }
  }

  /** Codes are case-insensitive: upper-casing first changes nothing. */
  lemma ParseCardIgnoresCase(text: string)
    ensures ParseCard(Upper(text)) == ParseCard(text)
  {
    TrimCommutesWithUpper(text);
    TrimCommutesWithUpper(TrimLeft(text));
    UpperIdempotent(Strip(text));
    assert Normalize(Upper(text)) == Normalize(text);
  }

  // ----- display order of a group -----

  /** Python orders suit letters alphabetically: C < D < H < S. */
  function SuitLetterOrder(s: Suit): int
  {
    match s
    case Clubs => 0
    case Diamonds => 1
    case Hearts => 2
    case Spades => 3
  }

  /** The sort key (rank, suit) as one integer; it is also the natural order of Card tuples. */
  function CardOrder(c: Card): int
  {
    c.rank * 4 + SuitLetterOrder(c.suit)
  }

  /** Sort key of an ace-high run: the ace counts as 14. */
  function AceHighOrder(c: Card): int
  {
    if c.rank == 1 then 14 else c.rank
  }

  /** One suit, holding an ace and a king but no two. */
  predicate LooksAceHigh(g: seq<Card>)
  {
    |set c | c in g :: c.suit| == 1 &&
    (exists c :: c in g && c.rank == 1) &&
    (exists c :: c in g && c.rank == 13) &&
    !(exists c :: c in g && c.rank == 2)
  }

  function DisplayOrder(g: seq<Card>): seq<Card>
  {
    if LooksAceHigh(g) then SortBy(g, AceHighOrder) else SortBy(g, CardOrder)
  }

  function JoinTexts(cs: seq<Card>): (s: string)
    ensures cs != [] ==> |s| >= 2
  {
    if cs == [] then ""
    else if |cs| == 1 then CardText(cs[0])
    else CardText(cs[0]) + ", " + JoinTexts(cs[1..])
  }

  /** format_group: the cards in display order, comma separated, in brackets. */
  function FormatGroup(g: seq<Card>): (s: string)
    ensures g == [] <==> s == "[]"
    ensures |s| >= 2 && s[0] == '[' && s[|s| - 1] == ']'
  {
    if g == [] then "[]"
    else
      DisplayOrderFacts(g);
      assert |DisplayOrder(g)| > 0 by { assert |multiset(DisplayOrder(g))| == |g|; }
      "[" + JoinTexts(DisplayOrder(g)) + "]"
  }

  /** The display order lists exactly the group's cards, sorted by the key chosen for the group. */
  lemma DisplayOrderFacts(g: seq<Card>)
    ensures multiset(DisplayOrder(g)) == multiset(g)
    ensures LooksAceHigh(g) ==> SortedBy(DisplayOrder(g), AceHighOrder)
    ensures !LooksAceHigh(g) ==> SortedBy(DisplayOrder(g), CardOrder)
  {
    SortByFacts(g, AceHighOrder);
    SortByFacts(g, CardOrder);
  }

  /** In an ace-high group the ace is shown last. */
  lemma AceShownLast(g: seq<Card>)
    requires LooksAceHigh(g)
    ensures |DisplayOrder(g)| == |g| && DisplayOrder(g)[|g| - 1].rank == 1
  {
    var d := DisplayOrder(g);
    DisplayOrderFacts(g);
    var ace :| ace in g && ace.rank == 1;
    assert ace in multiset(d);
    HighestLast(d, ace);
  }

  /** In a sorted group the last card has the highest key. */
  lemma HighestLast(d: seq<Card>, x: Card)
    requires SortedBy(d, AceHighOrder) && x in d
    ensures AceHighOrder(x) <= AceHighOrder(d[|d| - 1])
  {
    var k :| 0 <= k < |d| && d[k] == x;
  }

  lemma CardOrderInjective(a: Card, b: Card)
    requires CardOrder(a) == CardOrder(b)
    ensures a == b
  {
    assert a.rank == CardOrder(a) / 4;
  }

  lemma AceHighOrderInjective(g: seq<Card>, a: Card, b: Card)
    requires LooksAceHigh(g) && a in g && b in g && AceHighOrder(a) == AceHighOrder(b)
    ensures a == b
  {
    var suits := set c | c in g :: c.suit;
    assert a.suit in suits && b.suit in suits;
    if a.suit != b.suit {
      assert {a.suit, b.suit} <= suits;
      assert |{a.suit, b.suit}| == 2;
      SubsetCard(a.suit, b.suit, suits);
      assert false;
    }
  }

  lemma SubsetCard(x: Suit, y: Suit, s: set<Suit>)
    requires x in s && y in s && x != y
    ensures |s| >= 2
  {
    var rest := s - {x, y};
    assert s == {x, y} + rest;
    assert |{x, y}| == 2;
  }

  /** Groups with the same cards agree on whether they look ace-high. */
  lemma LooksAceHighSame(g: seq<Card>, h: seq<Card>)
    requires multiset(g) == multiset(h)
    ensures LooksAceHigh(g) <==> LooksAceHigh(h)
  {
    PermutationMembers(g, h);
    assert (set c | c in g :: c.suit) == (set c | c in h :: c.suit);
  }

  /** The display order depends only on which cards the group holds, not on their order. */
  lemma DisplayOrderIgnoresInputOrder(g: seq<Card>, h: seq<Card>)
    requires multiset(g) == multiset(h)
    ensures DisplayOrder(g) == DisplayOrder(h)
  {
    LooksAceHighSame(g, h);
    if LooksAceHigh(g) {
      forall x, y | x in g && y in g && AceHighOrder(x) == AceHighOrder(y) ensures x == y {
        AceHighOrderInjective(g, x, y);
      }
      SortByUnique(g, h, AceHighOrder);
    } else {
      forall x, y | x in g && y in g && CardOrder(x) == CardOrder(y) ensures x == y {
        CardOrderInjective(x, y);
      }
      SortByUnique(g, h, CardOrder);
    }
  }
}
