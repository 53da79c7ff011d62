# Teen patti card game, modelled in Dafny

This project models the core of a small three-card ("teen patti") card game. The game
exists in two front ends, and both share the same hand logic:

- `play_card_cli.py` keeps the players as a list of hands and reports one winner by
  player number.
- `play_card_api.py` keeps the players in a dictionary from `player1`..`player4` to the
  hand and its hand type, and reports every tied winner.

One game goes like this:
- It builds a 52-card deck, four cards of each of the thirteen ranks.
- It shuffles the deck, then deals four hands of three cards. Each card is popped off the end
  of the deck.
- It classifies each hand as Trail, Sequence, Pair or High Card, each with a tiebreak value.
- It scans the players in order. A player replaces the running best when their hand beats it.
  A player joins the tie list only when their hand is the very same card list as the best.
- Ties then go through a stable sort by highest card.

Modules:
- `hands.dfy` (`Hands`): ranks and their values, the classification (`Evaluate`) and the
  comparison (`Beats`). Also the "first strongest hand" predicate the scans are proved
  against.
- `deck.dfy` (`Deck`): the deck as built, and dealing off its end.
- `list_ops.dfy` (`ListOps`): the two list built-ins the game relies on. These are
  `list.index` and the stable descending `list.sort(key=..., reverse=True)`.
- `cli_game.dfy` (`CliGame`): the command-line game. `CardGame` is a class with fields
  `deck` and `players`.
- `api_game.dfy` (`ApiGame`): the web game. The dictionary is the pair `names` (key
  insertion order) and `players` (a map), because a Python dict iterates in insertion
  order.

Behaviour of the code as written worth noting:
- The Sequence tiebreak is the value of the third card **as dealt** (`hand[2]`), not the
  highest card of the run. So `[4,6,5]` has tiebreak 5 and loses to `[4,5,6]`.
- The Pair tiebreak is the value of the first card as dealt, not the paired rank.
- Cards are dealt from the **end** of the shuffled deck (`list.pop()`), not from its front.
- The sequence table also lists the window `[1,2,3]`. No rank has value 1, so this window
  never matches (`LowWindowUnreachable`). `[Q,K,A]` is a sequence.
- A tie needs element-wise equality of the two card lists. A later hand with the same ranks
  in another order, the same evaluation and the same highest card (for example `[5,3,5]`
  after `[5,5,3]`) does not tie: it is not stronger, so the earlier player keeps the lead.
  With a different evaluation the reordered hand can win: `[5,5,3]` beats `[3,5,5]`.
  `BeatsExamples` proves both cases.
- The tie sort never reorders anything. Tied hands are equal lists, so they have equal keys,
  and the stable sort returns them unchanged (`BreakTie`, `SortTies`).

## Model

| member | source | states |
|---|---|---|
| Hands.NumericValue | play_card_cli.py:132-143 | every rank has a value between 2 and 14 |
| Hands.NumericValueInjective | play_card_cli.py:142 | two ranks have the same value exactly when they are the same rank |
| Hands.NumericValueMatchesToken | play_card_cli.py:142 | the tokens '2'..'10' map to their own number, and J, Q, K, A map to 11, 12, 13, 14 |
| Hands.Category.Ordinal | play_card_cli.py:89 | the type order puts every category at a number between 0 and 3 |
| Hands.CategoryNamesDistinct | play_card_cli.py:83-90 | comparing the reported type names is comparing categories, and the type order is injective |
| Hands.HighestCard | play_card_cli.py:145-155 | the result is the value of one of the three cards and is at least the value of each |
| Hands.Token | play_card_cli.py:27 | every rank token is one character, except the two-character "10" (NumericValueMatchesToken relates the tokens to the values) |
| Hands.Category.Name | play_card_cli.py:51-57 | the four hand-type strings start with different letters, in type order T, S, P, H, so they are pairwise different (CategoryNamesDistinct) |
| Hands.SortedValues | play_card_cli.py:179 | the hand's card values as a list of three in ascending order; Sorted3Permutes shows they are the three card values reordered |
| Hands.Sorted3 | play_card_cli.py:179 | `sorted()` of three values: three values in ascending order |
| Hands.IsTrail | play_card_cli.py:157-167 | a trail also passes the pair test, and its first card is its highest |
| Hands.IsSequence | play_card_cli.py:169-179 | the table test holds exactly when the sorted values are three consecutive integers |
| Hands.IsPair | play_card_cli.py:181-191 | a hand failing the pair test has three different card values |
| Hands.Sorted3Permutes | play_card_cli.py:179 | sorting the three values yields one of their six orderings |
| Hands.SequenceTableRuns | play_card_cli.py:179 | a list is in the table exactly when it is three consecutive integers starting at 1..12 |
| Hands.LowWindowUnreachable | play_card_cli.py:179 | no hand sorts to `[1,2,3]`, so every sequence starts at 2 or more |
| Hands.SequenceIffRun | play_card_cli.py:169-179 | a hand passes the sequence test exactly when its three values are distinct and span a width of two |
| Hands.Evaluate | play_card_cli.py:40-57 | the tiebreak of any hand lies between 2 and the hand's highest card |
| Hands.CategoryByMultiplicity | play_card_cli.py:50-57 | in both directions: Trail means three cards of one rank; Pair means exactly two of a rank; Sequence and High Card mean three distinct ranks, with a span of two or not |
| Hands.TrailOutranksPairTest | play_card_cli.py:50-55 | a trail also passes the pair test but is reported as a Trail, with the common value as tiebreak |
| Hands.TiebreakByCategory | play_card_cli.py:50-57 | per category, what the tiebreak is: the common value, the third card as dealt, the first card as dealt, or the highest card (then at least 3 above the lowest) |
| Hands.EvaluateExamples | play_card_cli.py:50-57 | worked classifications, including the as-dealt sequence and pair tiebreaks and `[Q,K,A]` as a sequence |
| Hands.Beats | play_card_cli.py:59-90 | one hand beats another exactly when it is larger in the order by category, then tiebreak, then highest card (encoded as one number, `Score`) |
| Hands.TieIffEqualScore | play_card_cli.py:83-87 | neither hand beats the other exactly when category, tiebreak and highest card all agree |
| Hands.BeatsAsymmetric | play_card_cli.py:80-90 | no hand beats itself, and of two hands at most one beats the other |
| Hands.BeatsTransitive | play_card_cli.py:80-90 | beating is transitive, and so is not beating, which makes the comparison a strict weak order |
| Hands.BeatsByCategory | play_card_cli.py:88-90 | between different categories the one earlier in the type order wins, whatever the cards |
| Hands.BeatsFallback | play_card_api.py:86-90 | with equal category and tiebreak the higher highest card wins, and with that equal too neither wins |
| Hands.BeatsExamples | play_card_cli.py:80-90 | worked comparisons: a trail beats a high card, and the as-dealt tiebreaks decide between equal pairs and equal sequences; `[5,3,5]` is not stronger than `[5,5,3]` |
| Hands.FirstBestUnique | play_card_cli.py:105-114 | at most one position is the first strongest hand of a list |
| Hands.NewFirstBest | play_card_cli.py:110-112 | a hand that beats the running best becomes the first strongest of the longer prefix and occurs nowhere before it |
| Hands.KeepFirstBest | play_card_cli.py:110-114 | a hand that does not beat the running best leaves it the first strongest |
| Hands.FirstBestIsFirstOccurrence | play_card_cli.py:116-119 | the first strongest hand is equal to no earlier hand, so `list.index` finds its own position |
| Deck.FourOfEach | play_card_cli.py:28-29 | four cards per listed rank, card k of the rank at position k / 4 |
| Deck.FullDeck | play_card_cli.py:23-29 | 52 cards whose values run 2, 2, 2, 2, 3, ... 14, 14: card k has value k / 4 + 2 |
| Deck.FourOfEachCounts | play_card_cli.py:27-29 | extending by four copies of each listed rank gives four cards per listed rank and four times as many cards |
| Deck.RanksByValue | play_card_cli.py:27 | the rank list runs through the values 2..14 in order |
| Deck.RanksOnce | play_card_cli.py:27 | every rank occurs exactly once in the rank list |
| Deck.FullDeckComposition | play_card_cli.py:23-29 | the deck built has 52 cards, exactly four of each rank |
| Deck.ShuffledFreshDeck | play_card_cli.py:35 | a shuffle of the old deck plus the built deck has 52 cards more than the old deck |
| Deck.PopHand | play_card_cli.py:37 | card k of the hand is the card k places from the end of the deck |
| Deck.PopHandKeepsCards | play_card_cli.py:37 | three pops take exactly the cards that leave the deck |
| Deck.HandsFromEnd | play_card_cli.py:36-38 | dealing n hands produces n hands |
| Deck.HandsFromEndAt | play_card_cli.py:36-38 | hand k holds the cards at distances 3k, 3k+1 and 3k+2 from the end of the deck, in pop order |
| Deck.DealConservesCards | play_card_cli.py:31-38 | the dealt hands plus the rest of the deck hold exactly the cards of the deck before dealing |
| Deck.DealtWithinDeck | play_card_cli.py:31-38 | no rank is dealt more often than the deck held it |
| ListOps.IndexOf | play_card_cli.py:119 | the result is the first position holding the value |
| ListOps.SortByKeyDesc | play_card_cli.py:118 | the sort returns as many elements as it was given (SortPermutes, SortIsSorted and SortKeepsSortedInput state the rest) |
| ListOps.SortPermutes | play_card_cli.py:118 | the key sort returns a permutation of its input |
| ListOps.SortIsSorted | play_card_cli.py:118 | the key sort returns keys in descending order |
| ListOps.SortKeepsSortedInput | play_card_api.py:117-119 | input already in descending key order comes back unchanged |
| CliGame.TiedHands | play_card_cli.py:110-114 | the tie list holds only copies of the best hand and is no longer than the player list |
| CliGame.TiedHandsCount | play_card_cli.py:113-114 | the tie list holds the best hand once per occurrence among the players |
| CliGame.ScanReplace | play_card_cli.py:110-112 | the replace step keeps the scan invariant: first strongest of the prefix, tie list of equal hands |
| CliGame.ScanKeep | play_card_cli.py:113-114 | the keep step keeps the scan invariant and grows the tie list exactly on an equal card list |
| CliGame.ScanPlayers | play_card_cli.py:102-114 | the scan ends with no winner exactly on no players; otherwise it holds the scan invariant over all players |
| CliGame.FindWinner | play_card_cli.py:102-119 | the winner number is the first position of a hand nobody beats, and the tie list is every hand equal to it, as many as there are |
| CliGame.BreakTie | play_card_cli.py:116-119 | sorting the ties and re-finding the winner with `list.index` changes neither the winner nor the tie list |
| CliGame.CardGame.constructor | play_card_cli.py:19-21 | a new game has an empty deck and no players |
| CliGame.CardGame.InitializeDeck | play_card_cli.py:23-29 | the deck gains four cards of each rank, rank by rank |
| CliGame.CardGame.DealCards | play_card_cli.py:31-38 | with 12 cards or more the four hands dealt from the end are appended and the deck loses them; with fewer the deck empties and only the complete hands are appended |
| CliGame.CardGame.PlayGame | play_card_cli.py:92-128 | four hands are dealt from the end of the shuffled deck; the report lists them, and names a winner holding the first strongest hand with that hand's type |
| CliGame.Report | play_card_cli.py:121-128 | the report's winner number, hand and type belong to the first strongest hand |
| ApiGame.PlayerName | play_card_api.py:41 | the key of player i starts with "player", followed by the single digit i when i is below 10 |
| ApiGame.PlayerNames | play_card_api.py:39-41 | the keys of n players number n |
| ApiGame.PlayerNameInjective | play_card_api.py:41 | the keys of players 1..9 differ |
| ApiGame.PlayerNamesAt | play_card_api.py:39-41 | key k of the key list is that of player k+1 |
| ApiGame.Store | play_card_api.py:41 | after the assignment the key holds the new entry |
| ApiGame.StoreKeepsOthers | play_card_api.py:41 | dictionary assignment keeps every other entry, only appends to the key order, and keeps the key order in step with the dictionary |
| ApiGame.DetailsOf | play_card_api.py:41 | one stored entry per hand |
| ApiGame.DetailsOfAt | play_card_api.py:41 | entry k holds hand k and the category of that hand |
| ApiGame.DealStep | play_card_api.py:39-41 | dealing one more hand stores one more entry: the popped hand with its category |
| ApiGame.StoreHands | play_card_api.py:36-41 | storing the dealt hands keeps the earlier keys first, in order, adds at most one key per hand and drops no key |
| ApiGame.StoreHandsStep | play_card_api.py:39-41 | storing one more hand is one more assignment, under the next player's key |
| ApiGame.StoreNextHand | play_card_api.py:39-41 | dealing hand p + 1 stores the popped hand, with its category, under the key of player p + 1 |
| ApiGame.StoreHandsKeys | play_card_api.py:39-41 | after dealing, the keys are the old ones plus those of the players dealt to |
| ApiGame.StoreHandsValues | play_card_api.py:39-41 | after dealing, player i's entry is the i-th one stored, and every other key keeps its entry |
| ApiGame.StoreHandsConsistent | play_card_api.py:39-41 | dealing keeps the key order and the dictionary in step, with no key listed twice |
| ApiGame.StoreHandsFresh | play_card_api.py:39-41 | from an empty dictionary the key order is player1, player2, ... |
| ApiGame.StoredHandAt | play_card_api.py:39-41 | after dealing, player i holds the i-th hand dealt, stored with its category |
| ApiGame.HandsOf | play_card_api.py:108-109 | position k holds the hand of the k-th listed player |
| ApiGame.HoldersOf | play_card_api.py:111-115 | every listed holder is a player whose hand is exactly the given card list |
| ApiGame.HoldersOfComplete | play_card_api.py:111-115 | every listed player whose hand is exactly the card list is a holder |
| ApiGame.HoldersOfCount | play_card_api.py:111-115 | there are as many holders as players holding the card list |
| ApiGame.HoldersOfNone | play_card_api.py:111-115 | when no player holds the card list there are no holders |
| ApiGame.HoldersOfFirst | play_card_api.py:111-113 | the first holder is the first player holding the card list |
| ApiGame.Entries | play_card_api.py:121-124 | one report line per listed player, with that player's key, hand and hand type |
| ApiGame.ScanReplace | play_card_api.py:111-113 | the replace step keeps the scan invariant |
| ApiGame.ScanKeep | play_card_api.py:111-115 | the keep step keeps the scan invariant and adds the player exactly on an equal card list |
| ApiGame.SelectWinners | play_card_api.py:105-119 | no winners exactly on no players; otherwise the first winner holds the first strongest hand, and the winners are the players holding that card list, in dictionary order, all of them |
| ApiGame.SortTies | play_card_api.py:117-119 | the tie sort returns the winners unchanged |
| ApiGame.CardGame.constructor | play_card_api.py:22-24 | a new game has an empty deck and an empty dictionary |
| ApiGame.CardGame.InitializeDeck | play_card_api.py:26-32 | the deck gains four cards of each rank, rank by rank; the key order stays in step with the dictionary |
| ApiGame.CardGame.DealCards | play_card_api.py:34-41 | with 12 cards or more the four hands dealt from the end are stored under player1..player4 with their categories; with fewer only the complete hands are stored and the deck empties; either way the key order stays in step with the dictionary |
| ApiGame.CardGame.DealTurn | play_card_api.py:39-41 | one turn of the deal: with three cards left the next player's hand is stored on top of the earlier ones, otherwise the deck empties and nothing is stored; the dictionary stays consistent |
| ApiGame.CardGame.DealPlayer | play_card_api.py:40-41 | one player's hand is popped and stored with its category, unless the deck runs out; the key order stays in step with the dictionary |
| ApiGame.CardGame.PopThree | play_card_api.py:40 | three pops return the last three cards in pop order; a pop from an empty deck fails |
| ApiGame.CardGame.SetPlayer | play_card_api.py:41 | dictionary assignment: a new key goes to the end of the key order, and the key order stays in step with the dictionary |
| ApiGame.CardGame.PlayGame | play_card_api.py:95-124 | the dictionary holds the dealt hands, keyed player1..player4 on a fresh game; the report lists every player; the winners are every player holding the first strongest hand |

## Left out

- `random.shuffle` is a parameter `shuffled`. It must be a permutation of the deck as it is at the shuffle. Which permutation is chosen is not modelled.
- Flask, `jsonify` and the HTTP route are not modelled. The result is the `GameResult` value. `print` and the `__main__` block are not modelled either.
- `', '.join(...)` formatting is not modelled. Reports carry hands as card lists and hand types as `Category` values; `Category.Name` gives the reported text.
- The `int(card)` fallback in the value lookup is not modelled. Every card is one of the thirteen ranks, so the fallback is never reached from a deck the game builds.
- A pop from an empty list raises `IndexError` in Python. Here it is the outcome `EmptyDeck`: the deck ends empty and the hand being popped is lost. `PlayGame` always deals from at least 52 cards, so it never reaches this path.
- ApiGame.PlayerNameInjective: stated only for players 1..9. The game deals to four players.
- ApiGame.StoreHandsValues: stated only for at most nine hands, for the same reason.
- ApiGame.StoredHandAt: stated only for at most nine hands, for the same reason.
- ApiGame.StoreHandsFresh: stated only for at most nine hands, for the same reason.
