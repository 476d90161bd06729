# Makiaveli rummy solver and game core, modelled in Dafny

Makiaveli is a rummy game played with two 52-card decks (104 cards). Players
lay *groups* on a shared floor:

- a **set** is three or four cards of one rank in different suits;
- a **run** is three or more cards of one suit with consecutive ranks. The ace
  may sit below the two or above the king, but a run never wraps from the king
  to the two.

On each turn a player may rearrange the floor freely, provided every card
stays on it. Four face-up **cross** cards lie beside the floor. A cross card
may be worked into a group, but one group may not hold two of them. A player
who empties their hand wins.

This project models the core of the Python implementation. Each part maps to
one source file:

| Dafny file / module | source | what it models |
|---|---|---|
| `cards.dfy` / `Cards` | `card.py` | cards, display text, `parse_card`, `format_group` |
| `groups.dfy` / `Groups` | `solver.py` | `is_valid_set`, `is_valid_run`, `is_valid_group` |
| `pool.dfy` / `Pool` | `solver.py` | `CardPool`, a class over a 13 x 4 count matrix with a running total |
| `enumerate.dfy` / `Enumerate` | `solver.py` | `_sets_containing`, `_runs_containing`, `_groups_for` |
| `solver.dfy` / `Solver` | `solver.py` | `solve` (most-constrained-first backtracking), `verify_solution` |
| `incremental.dfy` / `Incremental` | `solver.py` | `_relevance_scores`, `_solve_incremental`, `solve_hand` |
| `matching.dfy` / `Matching` | `step_planner.py` | the greedy matching of target groups to floor groups |
| `step_planner.dfy` / `Steps` | `step_planner.py` | `_cards_from_counter`, `_find_sources`, `plan_steps` |
| `engine.dfy` / `Engine` | `game/engine.py` | deck, dealing, `draw_card`, `validate_play`, `apply_play`, the `GameState` class |
| `bot_finders.dfy` / `BotFinders` | `game/bot.py` | grouping by key, `_find_sets` |
| `bot_runs.dfy` / `BotRuns` | `game/bot.py` | `_find_runs` |
| `bot_groups.dfy` / `BotGroups` | `game/bot.py` | `_find_hand_groups`, `_find_cross_groups`, `_find_floor_extensions` |
| `bot_greedy.dfy` / `BotGreedy` | `game/bot.py` | `_respects_cross_anchoring`, `_greedy_play` |
| `bot_greedy_facts.dfy` / `BotGreedyFacts` | `game/bot.py` | what the greedy play promises |
| `bot_greedy_finding.dfy` / `BotGreedyFinding` | `game/bot.py` | a hand on which the greedy play reuses a cross card |
| `util.dfy` / `Util`, `sorting.dfy` / `Sorting` | — | `itertools.combinations`, Python's stable `sorted`, bags of groups |

Conventions used throughout:

- **Cards and counters.** A `Card` is a rank in 1..13 and one of four suits. A
  Python `Counter` of cards is a `multiset<Card>`: `&` is `*`, `-` is the
  truncating `-`, and `+` is `+`.
- **Deadlines.** The wall-clock deadlines of the solver become a budget of
  ticks. Each non-trivial call of `solve` spends one tick. "The deadline has
  passed" becomes "no ticks are left".
- **Code shape.** Code that updates state step by step is a `method` with
  loops. Each such method is proved equal to a function, and properties are
  proved about that function. `CardPool` and `GameState` are classes whose
  methods update their fields.

## Model

| member | source | states |
|---|---|---|
| Cards.SuitOfLetter | card.py:36-37 | a character names a suit exactly when it is one of S, H, D, C, and the named suit has that letter |
| Cards.NatToString | card.py:12 | `str(n)` is a non-empty string of decimal digits |
| Cards.DecimalRoundTrip | card.py:32 | `int()` of `str(n)` gives back n |
| Cards.RankNameRoundTrip | card.py:28-32 | reading a rank's printed name back through the letter map, or else `int()`, gives the rank |
| Cards.CardText | card.py:11-13 | the display text is the rank name (A, J, Q, K or the number) followed by the suit symbol |
| Cards.CardTextInjective | card.py:11-13 | two different cards never print the same text |
| Cards.ParseCard | card.py:19-39 | after strip and upper-casing, `TooShort` exactly when under 2 characters; on success the last character is the card's suit letter and the rest names its rank (a letter exactly, or digits with white space around them, as `int()` reads them); each error (not a number, rank outside 1..13, bad suit) is raised exactly in its own case, checked in the source's order |
| Cards.ParseCardRoundTrip | card.py:19-39 | parsing the code of any card (rank name and suit letter) gives that card back |
| Cards.ParseCardIgnoresPadding | card.py:21 | white space around a code does not change what it parses to |
| Cards.ParseCardSeparatorPadding | card.py:21 | the ASCII separators `\x1c` to `\x1f`, which `str.strip()` removes, before a card's code still give that card |
| Cards.ParseCardSpaceBeforeSuit | card.py:25-32 | white space between a rank and the suit letter is ignored for a numeric rank, since `int()` strips it, and makes a letter rank not a number, since the rank map matches exactly |
| Cards.ParseCardIgnoresCase | card.py:21 | upper-casing the text first changes nothing |
| Cards.FormatGroup | card.py:42-56 | the text is `[]` exactly for the empty group, and is always bracketed |
| Cards.DisplayOrderFacts | card.py:47-54 | the display order lists exactly the group's cards, sorted with the ace as 14 when the group is one suit holding A and K but no 2, and by (rank, suit) otherwise |
| Cards.AceShownLast | card.py:50-52 | in an ace-high group the ace is shown last |
| Cards.LooksAceHighSame | card.py:47-51 | the ace-high test depends only on which cards the group holds |
| Cards.DisplayOrderIgnoresInputOrder | card.py:47-54 | two groups holding the same cards are displayed identically |
| Groups.ValidSetIff | solver.py:56-61 | a valid set is three or more cards of one rank in pairwise different suits |
| Groups.ValidSetAtMostFour | solver.py:56-61 | a valid set never has more than four cards |
| Groups.RunDistinct | solver.py:64-72 | a valid run repeats no rank and no card |
| Groups.RunShape | solver.py:64-80 | a valid run is one suit and no repeats, and its ranks are either a..b with as many cards as ranks, or a..13 plus the ace |
| Groups.NoWraparound | solver.py:73-80 | a run holding a king, an ace and a two is the whole thirteen-card suit |
| Groups.RunCardsValid | solver.py:73-75 | a..b of one suit is a valid run whenever it has three cards or more |
| Groups.AceRunCardsValid | solver.py:76-79 | a..K of one suit plus the ace is a valid run |
| Pool.CardIndex | solver.py:17 | each card has one cell in 0..51, and the cell's card is that card |
| Pool.CardPool.constructor | solver.py:12-14 | a new pool is empty |
| Pool.CardPool.Add | solver.py:16-18 | `add` adds one copy of the card |
| Pool.CardPool.Remove | solver.py:20-24 | `remove` needs a copy of the card present, as the source asserts, and removes one copy |
| Pool.CardPool.Get | solver.py:26-27 | `get` returns the card's multiplicity |
| Pool.CardPool.Count | solver.py:26-27 | a cell read as a function is the card's multiplicity |
| Pool.CardPool.IsEmpty | solver.py:33-34 | `is_empty` holds exactly when the pool has no cards |
| Pool.CardPool.RemoveGroup | solver.py:36-38 | `remove_group` takes out exactly the group's cards, which must be present |
| Pool.CardPool.AddGroup | solver.py:40-42 | `add_group` adds exactly the group's cards |
| Pool.CardPool.FromCards | solver.py:44-49 | `from_cards` builds a pool holding exactly the listed cards |
| Pool.CardPool.TotalIsCellSum | solver.py:14-24 | the running total equals the sum of the 52 cells |
| Enumerate.OtherSuits | solver.py:93 | `others` lists, without repeats, exactly the other suits in which the pool holds the rank |
| Enumerate.SetsContainingSound | solver.py:91-98 | every candidate set is a valid set that holds the card and uses only pool cards |
| Enumerate.SetsContainingComplete | solver.py:91-98 | every valid set that holds the card and uses only pool cards is a candidate, up to order |
| Enumerate.FourSetsWhenAllSuitsPresent | solver.py:95-97 | with the other three suits present there are exactly four candidate sets |
| Enumerate.LowEnd | solver.py:110-112 | the walk down from the rank stops at 1 or at a missing rank, and every rank passed is held |
| Enumerate.HighEnd | solver.py:113-115 | the walk up from the rank stops at 13 or at a missing rank, and every rank passed is held |
| Enumerate.AceLowEnd | solver.py:124-126 | the ace-high walk down from the king stops at 2 or at a missing rank |
| Enumerate.RunsContainingSound | solver.py:101-133 | every candidate run is a valid run that holds the card and uses only pool cards |
| Enumerate.RunsContainingComplete | solver.py:101-133 | every valid run that holds the card and uses only pool cards is a candidate, up to order |
| Enumerate.GroupsForSound | solver.py:136-139 | every candidate group is valid, holds the card and uses only pool cards |
| Enumerate.GroupsForComplete | solver.py:136-139 | every valid group that holds the card and uses only pool cards is a candidate, up to order |
| Enumerate.GroupsForIn | solver.py:136-139 | the enumeration read from the pool's count matrix equals the enumeration on its multiset |
| Solver.PartitionHasNoDeadCard | solver.py:172-173 | a card with no candidate group rules out every partition, so the dead-end return loses no solution |
| Solver.SmallPoolNotPartitionable | solver.py:156-157 | one or two cards cannot be partitioned |
| Solver.NoPartitionByBranching | solver.py:183-191 | if no candidate group of a card leaves a partitionable rest, the pool has no partition |
| Solver.MostConstrained | solver.py:162-181 | the scan picks a present card together with exactly its candidate groups, and reports a dead end exactly when it has none |
| Solver.Solve | solver.py:146-191 | the pool ends as it began; a result partitions the pool into valid groups; an empty pool gives no groups; 1 or 2 cards give none; a failure with budget left means the pool has no partition |
| Solver.VerifySolution | solver.py:324-342 | `Valid` exactly when the groups partition the cards; an invalid group is reported first, and it is the first invalid group in the list; a count mismatch only when every group is valid |
| Solver.GroupCounts | solver.py:330-333 | the counter of all groups is the bag of their cards |
| Solver.CardCounts | solver.py:335-337 | the counter of a card list is its multiset |
| Incremental.ScoreBounds | solver.py:213-218 | a group scores between 0 and 3 per card |
| Incremental.RelevanceZeroIff | solver.py:203-221 | a group scores 0 exactly when none of its cards shares a rank or a suit with a hand card |
| Incremental.RelevanceScores | solver.py:203-221 | the scores list (i, relevance of group i) for every floor group, in floor order |
| Incremental.RelevantOrder | solver.py:240-242 | `relevant` lists, once each, exactly the groups with a positive score, highest score first and ties in floor order (the sort is stable) |
| Incremental.PoolCards | solver.py:255-257 | the sub-problem's cards are the hand plus the dissolved groups |
| Incremental.KeepUndissolved | solver.py:263-270 | the result is the solved groups followed by every undissolved floor group, in floor order |
| Incremental.Conservation | solver.py:263-270 | combining keeps exactly the hand and floor cards, and valid groups stay valid |
| Incremental.Attempt | solver.py:254-270 | one sub-problem: a result partitions the hand and dissolved cards and keeps the rest of the floor; a failure with budget left means no such partition |
| Incremental.SolveIncremental | solver.py:224-283 | an empty hand returns the floor; a result holds exactly the hand and floor cards, dissolving only relevant groups or all of them; a failure with budget left means hand and floor cannot be partitioned |
| Incremental.SolveHand | solver.py:286-321 | solvable exactly when there are target groups; the left-out cross cards are a combination in `combinations` order; targets plus left-out cards are the hand, the cross and the floor; with budget left, no smaller exclusion could be placed, and a failure means none could |
| Matching.SortedPairsFacts | step_planner.py:31-37 | the sorted pairs are exactly the (overlap, target, floor) triples with a positive overlap, in strictly descending tuple order, so none repeats |
| Matching.EncodeOrder | step_planner.py:37 | the integer sort key orders triples as Python orders tuples |
| Matching.GreedyInjective | step_planner.py:39-44 | the greedy match never gives two targets the same floor group |
| Matching.GreedyFromPairs | step_planner.py:39-44 | every match is one of the pairs walked over |
| Matching.GreedyBlocked | step_planner.py:39-44 | a pair passed over had its target already matched or its floor group already used |
| Matching.MatchFacts | step_planner.py:30-44 | the match is one-to-one, made of overlapping pairs, and an unmatched target that shares a card with a floor group finds that group taken |
| Matching.SelfMatchFull | step_planner.py:30-44 | matching a floor against itself gives every group a floor group that contains all its cards |
| Steps.CardsFromCounter | step_planner.py:13-16 | the list holds exactly the counter's cards, sorted by (rank, suit) |
| Steps.CardsFromCounterUnique | step_planner.py:13-16 | any sorted list of the counter's cards is that list |
| Steps.FindSources | step_planner.py:132-149 | sources are non-empty exactly when something is needed and the released groups hold it all; they then cite exactly the needed cards, by strictly increasing group (so each group at most once, as in the source's dict), each entry non-empty (`if overlap:`) and giving that group's share: what of the needed cards the groups before it did not give; every group is left holding its cards less that share, whether or not sources are returned |
| Steps.FindSourcesOutcome | step_planner.py:140-149 | when the walk over the groups stops, the same outcome holds of the values it reached |
| Steps.TakingDone | step_planner.py:140-149 | nothing remains needed exactly when the groups held everything needed |
| Steps.StayingFacts | step_planner.py:47-49 | under a one-to-one match each matched floor group keeps exactly the cards it shares with its target |
| Steps.FreedAt | step_planner.py:51-57 | each floor group releases exactly its cards that do not stay |
| Steps.ReleasedByGroup | step_planner.py:51-57 | `released_by_group` and `released` are those released cards and their sum |
| Steps.MatchGroups | step_planner.py:31-44 | the two loops, the sort and the greedy walk compute the one-to-one match |
| Steps.TakeFromFloor | step_planner.py:84-95 | the floor part holds exactly the cards needed from the floor; it names source groups, each at most once and in increasing order, each entry non-empty and holding that group's share, exactly when some floor card is needed and the released groups still hold them all, and otherwise lists the cards in display order; each released group loses its share of the needed cards either way |
| Steps.MakeStep | step_planner.py:65-127 | a step plays the needed cards still in the hand, takes the rest from the floor, names source groups exactly when the released groups still hold that rest, in increasing order with no group twice and no empty entry, each group giving its share of it, reshapes the matched group or forms a new one, and shows both in display order; each released group loses its share of the floor cards taken |
| Steps.SameFloorUnchanged | step_planner.py:72-73 | planning a floor onto itself leaves every target matched and needing nothing |
| Steps.SameFloorNoSteps | step_planner.py:64-73 | planning a floor onto itself, with no empty group, gives no step |
| Steps.WalkTargets | step_planner.py:64-127 | the walk gives one step per new or changed target, in target order; each step names source groups exactly when what the earlier steps left of the released groups holds its floor cards, and each source carries its group's non-empty share of what those steps left in it, the groups in increasing order with none twice; the hand cards played plus those left are the hand |
| Steps.PlanSteps | step_planner.py:19-129 | the match is the greedy one; there is one step per target that is new or changed, each as `MakeStep` states, with source groups named exactly when what the earlier steps left of the released groups holds the step's floor cards, each source group named once, in increasing order, giving its non-empty share of what the earlier steps left in that group; the floor cards attributed to groups are among those released; a floor planned onto itself needs no step |
| Engine.Other | game/engine.py:51 | the turn passes to the other player |
| Engine.OneDeck | game/engine.py:24-25 | one deck lists rank 1..13 in each suit, suit by suit |
| Engine.TwoDecksFull | game/engine.py:22-27 | the two decks hold every card exactly twice |
| Engine.Popped | game/engine.py:33-35 | n pops take the last n cards, last first |
| Engine.PoppedCards | game/engine.py:33-35 | the popped cards and what stays are the deck's cards |
| Engine.Deal | game/engine.py:33-35 | the pop loop deals the popped cards and leaves the rest of the deck |
| Engine.CardCounter | game/engine.py:55-60 | `_card_counter` is the multiset of the cards |
| Engine.ActiveCross | game/bot.py:22-24 | the active cross lists exactly the cards still in a slot |
| Engine.FirstExcess | game/engine.py:83-87 | the index found is the first position of the list whose card counts more in the first bag than in the second; none exactly when no position does |
| Engine.FirstBadGroup | game/engine.py:120-124 | the index found is the first group with fewer than 3 cards or not valid, every group before it being fine; none exactly when every group is fine |
| Engine.CheckCounts | game/engine.py:89-118 | conservation fails exactly when the new floor lacks an old-floor or played card, or has more than the floor, the play and the active cross give; the named card is the first offender in the order the source's Counter lists its keys (new floor, then old floor, then play) |
| Engine.CheckGroups | game/engine.py:120-145 | the groups pass exactly when each has 3 or more cards, is valid, and no group claims two cross cards; a short or invalid group reported is the first such group, every group before it having 3+ cards and being valid |
| Engine.CheckFloor | game/engine.py:89-145 | conservation is checked before the groups; an extra card or a card the cross cannot give is the first such card in Counter key order, and a short or invalid group is the first bad group |
| Engine.ValidatePlay | game/engine.py:63-145 | nothing played is rejected first; a card not in the hand is the first card of the play, in play order, with more copies played than held; otherwise the floor checks decide |
| Engine.ValidatePlayAccepts | game/engine.py:63-145 | a play is accepted exactly when it plays some cards, all from the hand, the new floor is the old floor plus the play plus some active cross cards, all groups have 3+ cards and are valid, and the cross cards stay apart |
| Engine.CrossAnchoredWithoutCross | game/engine.py:130 | with no active cross card every floor is anchored |
| Engine.WithoutCards | game/engine.py:159-168 | the hand loop removes exactly the played copies |
| Engine.RemovePlayed | game/engine.py:159-168 | the loop computes that hand |
| Engine.WithoutAll | game/engine.py:159-168 | taking out copies the hand holds shrinks it by their number; it is empty exactly when all went |
| Engine.Incorporate | game/engine.py:183-188 | a slot is only ever emptied, never refilled |
| Engine.IncorporateCards | game/engine.py:170-188 | the active cross loses exactly the surplus cards, as far as it holds them |
| Engine.MarkIncorporated | game/engine.py:183-188 | the cross loop computes that cross |
| Engine.DealtOrder | game/engine.py:30-42 | `new_game` gives the human the last five cards, the bot the next five and the cross the next four, with an empty floor and the human to play |
| Engine.DealtCards | game/engine.py:30-42 | dealing keeps every card of the deck |
| Engine.DealtFull | game/engine.py:22-42 | a game dealt from the two decks holds every card exactly twice |
| Engine.DrawnKeepsCards | game/engine.py:45-52 | drawing keeps every card of the game |
| Engine.DrawnMovesOne | game/engine.py:45-52 | from an empty deck nothing changes; otherwise the top card moves to the end of the player's hand and the turn passes |
| Engine.AppliedFields | game/engine.py:148-198 | `apply_play` sets the hand, cross and floor, and either declares the player the winner or passes the turn |
| Engine.AppliedKeepsCards | game/engine.py:148-198 | an accepted play keeps every card of the game |
| Engine.AppliedHands | game/engine.py:158-168 | the player loses exactly the played cards, and the other hand is untouched |
| Engine.AppliedTurn | game/engine.py:192-198 | playing the whole hand wins without passing the turn; otherwise the turn passes |
| Engine.PlayOn | game/engine.py:148-198 | the steps of `apply_play` compute the applied game |
| Engine.GameState.NewGame | game/engine.py:30-42 | the new state is the dealt game |
| Engine.GameState.DrawCard | game/engine.py:45-52 | the new state is the drawn game, and the drawn card is the deck's last card, if there was one |
| Engine.GameState.ApplyPlay | game/engine.py:148-198 | the new state is the applied game |
| BotFinders.KeysInOrder | game/bot.py:61-63 | the keys are listed once each, every card's key is listed, and every listed key has cards |
| BotFinders.GroupBy | game/bot.py:61-63 | `by_key` maps exactly the listed keys, each to its cards in hand order |
| BotFinders.FirstPerSuit | game/bot.py:68-72 | the first card of each suit: no suit twice, only the input's cards, every input suit present |
| BotFinders.UniqueBySuit | game/bot.py:68-72 | the loop computes those cards |
| BotFinders.FindSets | game/bot.py:59-80 | the loop computes the sets of each rank in order of first appearance |
| BotFinders.SetsSound | game/bot.py:59-80 | every set offered is a valid set of distinct cards the hand holds |
| BotFinders.SetsComplete | game/bot.py:66-75 | a rank held in three or more suits offers one card of each suit held |
| BotFinders.FourSuitsSets | game/bot.py:76-79 | a rank held in all four suits also offers its four 3-card sets |
| BotRuns.BlockEnd | game/bot.py:100-102 | the inner loop stops at the end of the block of consecutive ranks |
| BotRuns.FindRuns | game/bot.py:83-124 | the loops compute the runs of each suit in order of first appearance |
| BotRuns.RunsOfSuit | game/bot.py:90-122 | one suit's runs are the block walk, then the ace-high runs |
| BotRuns.ByRank | game/bot.py:92-94 | `by_rank` maps each held rank of the suit to its card |
| BotRuns.BlockRuns | game/bot.py:98-110 | the outer while loop computes the walk |
| BotRuns.SubRuns | game/bot.py:104-109 | each sub-run of three or more ranks of a block is offered, by start, then by end |
| BotRuns.AceRuns | game/bot.py:113-122 | the ace-high loop computes the ace-high runs |
| BotRuns.WalkMember | game/bot.py:98-110 | every list of the walk is the cards of three or more consecutive ranks |
| BotRuns.WalkContains | game/bot.py:98-110 | the walk offers every stretch of three or more consecutive held ranks |
| BotRuns.RunsSound | game/bot.py:83-124 | every list offered is a straight run a..b or a run a..K plus the ace, all of whose cards the hand holds |
| BotRuns.StraightOffered | game/bot.py:98-110 | every held run a..b of three or more cards is offered |
| BotRuns.AceHighOffered | game/bot.py:112-122 | every held run a..K plus the ace is offered |
| BotRuns.RunsExact | game/bot.py:83-124 | the runs offered are exactly the held straight and ace-high runs |
| BotRuns.RunsValid | game/bot.py:83-124 | every list offered is a valid run of distinct hand cards |
| BotGroups.Dedup | game/bot.py:131-137 | the dedup keeps input groups only, one per card multiset, and loses no multiset |
| BotGroups.DedupGroups | game/bot.py:131-137 | the loop computes that list |
| BotGroups.OrderedFacts | game/bot.py:130-139 | the result is deduplicated and sorted largest first |
| BotGroups.FindHandGroups | game/bot.py:127-139 | the function computes the ordered sets and runs of the hand |
| BotGroups.HandGroupsSound | game/bot.py:127-139 | every hand group is valid, repeats no card and uses only hand cards |
| BotGroups.HandGroupsShape | game/bot.py:127-139 | the hand groups are the sets and runs found, one per multiset, largest first |
| BotGroups.FindFloorExtensions | game/bot.py:189-201 | the loops compute the extensions |
| BotGroups.ExtensionsExact | game/bot.py:189-201 | an extension is offered exactly when it adds a hand card to a floor group and the result is valid |
| BotGroups.SameRankOthers | game/bot.py:147 | exactly the hand cards of the cross card's rank in another suit |
| BotGroups.KeepValid | game/bot.py:155-161 | exactly the listed groups that are valid |
| BotGroups.FindCrossGroups | game/bot.py:142-186 | the loops compute the ordered sets and runs around each cross card |
| BotGroups.CrossSetsOf | game/bot.py:146-161 | the set part of the loop body computes the sets around one cross card |
| BotGroups.CrossRunsOf | game/bot.py:163-175 | the run part of the loop body computes the runs around one cross card |
| BotGroups.CrossGroupsSound | game/bot.py:142-186 | every cross group is a valid group of distinct cards around one of the cross cards, all its other cards from the hand |
| BotGroups.CrossGroupsShape | game/bot.py:177-186 | the cross groups are those found, one per multiset, largest first |
| BotGreedy.RespectsCrossAnchoring | game/bot.py:27-43 | the check holds exactly when no group claims two of the cross cards |
| BotGreedy.AnchoredByGroup | game/bot.py:34-43 | the anchoring holds exactly when each group claims at most one copy left by the earlier groups |
| BotGreedy.ClaimCopies | game/bot.py:35-40 | the inner loop counts the claimed copies and leaves the rest |
| BotGreedy.HandPart | game/bot.py:227 | `hand_cards` are the group's cards in the remaining hand |
| BotGreedy.CrossPart | game/bot.py:228-229 | `cross_in` are the group's cards not in the hand that match a cross card |
| BotGreedy.PlayableIff | game/bot.py:226-234 | a group is playable exactly when each of its cards is held or is a cross card |
| BotGreedy.BestNew | game/bot.py:226-234 | the best new group is a candidate, playable, scoring above 0 |
| BotGreedy.FirstExtension | game/bot.py:236-240 | the extension taken is the first whose card is held |
| BotGreedy.Choose | game/bot.py:223-240 | an extension is chosen only when listed and its card is held |
| BotGreedy.RemoveFirst | game/bot.py:251 | `list.remove` takes out one copy |
| BotGreedy.GreedyPlayLoop | game/bot.py:206-261 | the loop computes the greedy play as written |
| BotGreedy.PlayRound | game/bot.py:218-257 | one round computes the round's step |
| BotGreedy.PlayBest | game/bot.py:245-257 | playing the chosen play gives the round's table as written: an extension's index is in range |
| BotGreedy.ScorePlays | game/bot.py:222-240 | both scoring loops compute the round's choice |
| BotGreedy.ScoreNewGroups | game/bot.py:226-234 | the scoring loop computes the best new group (a candidate, playable, scoring above 0) and its score |
| BotGreedy.ScoreExtensions | game/bot.py:236-240 | an extension only counts when no new group scored |
| BotGreedy.TakeCards | game/bot.py:249-252 | the card loop moves the group's held cards to the played list |
| BotGreedy.FirstExtensionNone | game/bot.py:236-240 | no extension is taken exactly when none has a held card |
| BotGreedyFacts.TakeSplits | game/bot.py:249-252 | the held cards move from hand to played, and the rest of the group is skipped |
| BotGreedyFacts.ApplyFacts | game/bot.py:245-257 | a round plays at least one card, keeps hand plus played, adds at least the played cards to the floor, and leaves valid groups where it changed the floor |
| BotGreedyFacts.StepProgress | game/bot.py:217-257 | a round that plays moves at least one card from the hand to the played list, adds at least those cards to the floor and at most one group, and every group it changes is valid |
| BotGreedyFacts.RoundsProgress | game/bot.py:217-243 | n rounds keep hand plus played, add at least the played cards to the floor and at most n groups, and every group they change is valid; with cross cards used up, the floor gains only played and cross cards |
| BotGreedyFacts.PickNone | game/bot.py:219-243 | a round finds nothing exactly when there is no new group and no extension |
| BotGreedyFacts.GreedyPlayNone | game/bot.py:259-261 | the play is None exactly when the hand forms no group, alone or with a cross card, and extends no floor group |
| BotGreedyFacts.GreedyPlayFacts | game/bot.py:206-261 | as written: at least one card is played, only from the hand; the floor gains at least the played cards and at most ten groups; changed groups are valid |
| BotGreedyFacts.GreedyPlayFixedFacts | game/bot.py:206-261 | with cross cards used up, the floor also gains nothing beyond the played and cross cards |
| BotGreedyFacts.GreedyPlayFixedValidates | game/bot.py:295-300 | the corrected play passes `validate_play` exactly when its groups keep the cross cards apart |
| BotGreedyFinding.GreedyPlayReusesCross | game/bot.py:226-234 | on the hand 7H 7D 7H 7D with 7S in the cross, the play as written lays 7S twice and `validate_play` rejects it |
| BotGreedyFinding.GreedyPlayFixedSevens | game/bot.py:226-234 | on that hand the corrected play lays one set of three sevens, plays one 7H and one 7D, and is accepted |
| Util.CombinationsCount | solver.py:96 | `combinations(xs, k)` yields n choose k lists |
| Util.CombinationMembers | solver.py:96 | each combination has k members, all from the input, and repeats none when the input repeats none |
| Sorting.SortByFacts | solver.py:241 | `sorted` returns a sorted permutation of its input |
| Sorting.SortByStable | solver.py:241 | the sort is stable: ties keep their input order |
| Sorting.SortByUnique | step_planner.py:16 | when keys are distinct, sorting any arrangement gives the same list |

## Left out

- Wall-clock time: `time.time()` deadlines (`_SUB_TIMEOUT`, `_OVERALL_TIMEOUT`, the bot's 2-second search) become a tick budget. A result obtained with ticks to spare is exact; a timeout is a `None` with no ticks left.
- Randomness: `random.shuffle` in `_make_deck` is a parameter. `GameState.NewGame` takes the shuffled deck.
- `bot_turn` and `_try_solve` are not modelled. They apply the first play found without calling `validate_play`. Their parts are modelled: `solve_hand`, `_respects_cross_anchoring`, `_greedy_play` and `draw_card`.
- The bot's subset search tries `combinations` of hand positions under a deadline. It is left out with `bot_turn`.
- `BotMove`, `bot_move_to_dict`, `game_state_to_dict`, `card_to_dict`, the API, the server, `main.py`, `agent.py` and `generate.py` are serialisation or I/O and are not part of this model.
- The step text of `plan_steps` is not modelled. Each string is a `Step` value that carries the same facts: the group reshaped, the sorted hand cards, the floor cards by source group, and both groups in display order. `remaining_released` is computed but never read, so it is not modelled.
- `int()` in `parse_card` accepts signs, underscores and non-ASCII digits. The model accepts decimal digits only, so `"+7S"` is `NotANumber` here. `strip` and `int()` drop only the ASCII white space that `str.isspace()` accepts: space, `\t`, `\n`, `\x0b`, `\x0c`, `\r` and `\x1c` to `\x1f`. Non-ASCII white space such as U+00A0 is kept, so it makes the code fail to parse. `upper` is ASCII-only.
- The dedup key `tuple(sorted((rank, suit) for c in g))` of `_find_hand_groups` and `_find_cross_groups` is modelled as the group's card multiset. Two groups have equal sorted tuples exactly when their multisets are equal, so both keys decide the same way.
- Cards.FormatGroup: states the bracket shape and the empty case; the text between the brackets is not characterised beyond `Cards.DisplayOrderFacts`.
- Solver.MostConstrained: does not state that the chosen card has the fewest candidates. Only the soundness of the choice matters to `Solver.Solve`'s contract.
- Solver.Solve: does not state which partition is found first. It states that any result is a partition, and what a failure means.
- Incremental.SolveIncremental: does not state that fewer dissolved groups are tried first. It states which groups may be dissolved and what a failure means.
- BotGreedyFacts.GreedyPlayFacts: does not bound the floor by the cross cards. The play as written can reuse a cross card (see Findings).
- Integer widths: Python integers are unbounded, as are Dafny's, so nothing wraps.

## Findings

| source | as written | input that shows it | evidently intended | confidence | as-written member | corrected member |
|---|---|---|---|---|---|---|
| game/bot.py:226-252 | `_greedy_play` scores a group's cross cards against the full `cross` list and never removes one once used, so a later round can lay the same cross card again | hand [7H, 7D, 7H, 7D], cross [7S, -, -, -], empty floor: round 1 lays {7S, 7H, 7D}; round 2 lays it again; the floor holds two 7S, and `validate_play` rejects the play with `NotFromCross` | each cross card is used at most once, so round 2 finds nothing and the single set is accepted | not executed | BotGreedyFinding.GreedyPlayReusesCross | BotGreedyFinding.GreedyPlayFixedSevens |
