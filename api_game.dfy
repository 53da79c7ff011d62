// The web variant of the game: players are kept in a dictionary from "player1".."player4"
// to the hand and its hand type, and one game reports every tied winner.

module ApiGame {
  import opened Hands
  import opened Deck
  import opened ListOps

  /** What the dictionary stores for a player: the hand and its category at dealing time. */
  datatype PlayerDetails = PlayerDetails(hand: Hand, handType: Category)

  /** One line of the game's report: player key, hand and hand type. */
  datatype PlayerEntry = PlayerEntry(player: string, hand: Hand, handType: Category)

  /** What one game reports: every player in dealing order, and every tied winner. */
  datatype GameResult = GameResult(players: seq<PlayerEntry>, winners: seq<PlayerEntry>)

  /** The dictionary key of the i-th player dealt. */
  function PlayerName(i: nat): (s: string)
    ensures |s| >= 7 && s[..6] == "player"
    ensures i < 10 ==> s == "player" + [('0' as int + i) as char]
  {
    "player" + Decimal(i)
  }

  /** The keys of the first n players, in dealing order. */
  function PlayerNames(n: nat): (ns: seq<string>)
    ensures |ns| == n
  {
    if n == 0 then [] else PlayerNames(n - 1) + [PlayerName(n)]
  }

  /** Keys of players 1..9 differ. */
  lemma PlayerNameInjective(i: nat, j: nat)
    requires 1 <= i <= 9 && 1 <= j <= 9
    ensures PlayerName(i) == PlayerName(j) <==> i == j
  {
    if PlayerName(i) == PlayerName(j) {
      assert PlayerName(i)[6] == PlayerName(j)[6];
    }
  }

  lemma {:induction false} PlayerNamesAt(n: nat, k: nat)
    requires k < n
    ensures PlayerNames(n)[k] == PlayerName(k + 1)
  {
    if k < n - 1 {
      PlayerNamesAt(n - 1, k);
    }
  }

  /** Storing under a key, as a Python dict does: a new key goes to the end of the key order,
      an existing key keeps its place and gets the new value. */
  function Store(names: seq<string>, players: map<string, PlayerDetails>, name: string, d: PlayerDetails)
    : (r: (seq<string>, map<string, PlayerDetails>))
    ensures name in r.1 && r.1[name] == d
  {
    (if name in players then names else names + [name], players[name := d])
  }

  /** Storing under one key leaves every other entry as it was, only appends to the key order,
      and keeps the key order in step with the dictionary. */
  lemma StoreKeepsOthers(names: seq<string>, players: map<string, PlayerDetails>, name: string, d: PlayerDetails)
    ensures var r := Store(names, players, name, d);
      && (forall m :: m in players && m != name ==> m in r.1 && r.1[m] == players[m])
      && (forall m :: m in r.1 ==> m in players || m == name)
      && |names| <= |r.0| <= |names| + 1 && r.0[..|names|] == names
      && (Consistent(names, players) ==> Consistent(r.0, r.1))
  {
  }

  /** What the dealer stores for each hand: the hand and its category. */
  function DetailsOf(hands: seq<Hand>): (ds: seq<PlayerDetails>)
    ensures |ds| == |hands|
  {
    if hands == [] then []
    else
      var last := hands[|hands| - 1];
      DetailsOf(hands[..|hands| - 1]) + [PlayerDetails(last, Evaluate(last).category)]
  }

  /** Entry k is hand k with its category. */
  lemma {:induction false} DetailsOfAt(hands: seq<Hand>, k: int)
    requires 0 <= k < |hands|
    ensures DetailsOf(hands)[k] == PlayerDetails(hands[k], Evaluate(hands[k]).category)
  {
    if k < |hands| - 1 {
      DetailsOfAt(hands[..|hands| - 1], k);
    }
  }

  /** Dealing one more hand stores one more entry: that hand with its category. */
  lemma DealStep(deck: seq<Rank>, p: nat)
    requires 3 * (p + 1) <= |deck|
    ensures DetailsOf(HandsFromEnd(deck, p + 1)) ==
      DetailsOf(HandsFromEnd(deck, p)) + [PlayerDetails(PopHand(deck[..|deck| - 3 * p]), Evaluate(PopHand(deck[..|deck| - 3 * p])).category)]
  {
    var hands := HandsFromEnd(deck, p + 1);
    assert hands[..p] == HandsFromEnd(deck, p);
  }

  /** Storing the given entries, in order, under the keys of players 1, 2, ... */
  function StoreHands(names: seq<string>, players: map<string, PlayerDetails>, ds: seq<PlayerDetails>)
    : (r: (seq<string>, map<string, PlayerDetails>))
    ensures |names| <= |r.0| <= |names| + |ds| && r.0[..|names|] == names
    ensures forall m :: m in players ==> m in r.1
  {
    if ds == [] then (names, players)
    else
      var n := |ds|;
      var before := StoreHands(names, players, ds[..n - 1]);
      Store(before.0, before.1, PlayerName(n), ds[n - 1])
  }

  /** Storing one more entry is one more dictionary assignment, under the next player's key. */
  lemma StoreHandsStep(names: seq<string>, players: map<string, PlayerDetails>, ds: seq<PlayerDetails>, d: PlayerDetails)
    ensures StoreHands(names, players, ds + [d]) ==
      var before := StoreHands(names, players, ds); Store(before.0, before.1, PlayerName(|ds| + 1), d)
  {
    assert (ds + [d])[..|ds|] == ds;
  }

  /** Dealing hand p + 1 stores it, with its category, under the key of player p + 1. */
  lemma StoreNextHand(deck: seq<Rank>, p: nat, names: seq<string>, players: map<string, PlayerDetails>)
    requires 3 * (p + 1) <= |deck|
    ensures var before := StoreHands(names, players, DetailsOf(HandsFromEnd(deck, p)));
      var dealt := PopHand(deck[..|deck| - 3 * p]);
      StoreHands(names, players, DetailsOf(HandsFromEnd(deck, p + 1))) ==
        Store(before.0, before.1, PlayerName(p + 1), PlayerDetails(dealt, Evaluate(dealt).category))
  {
    var dealt := PopHand(deck[..|deck| - 3 * p]);
    var ds, d := DetailsOf(HandsFromEnd(deck, p)), PlayerDetails(dealt, Evaluate(dealt).category);
    DealStep(deck, p);
    StoreHandsStep(names, players, ds, d);
  }

  /** The key order and the dictionary agree, and no key is listed twice. */
  ghost predicate Consistent(names: seq<string>, players: map<string, PlayerDetails>) {
    && (forall n :: n in names <==> n in players)
    && (forall i, j :: 0 <= i < j < |names| ==> names[i] != names[j])
  }

  /** After storing, the dictionary's keys are the old keys and those of players 1..n. */
  lemma {:induction false} StoreHandsKeys(names: seq<string>, players: map<string, PlayerDetails>, ds: seq<PlayerDetails>)
    ensures forall m :: m in StoreHands(names, players, ds).1 <==> m in players || m in PlayerNames(|ds|)
  {
    if ds != [] {
      var n := |ds|;
      StoreHandsKeys(names, players, ds[..n - 1]);
      assert PlayerNames(n) == PlayerNames(n - 1) + [PlayerName(n)];
    }
  }

  /** After storing, player i's entry is the i-th one stored, and every other key keeps its old entry. */
  lemma {:induction false} StoreHandsValues(names: seq<string>, players: map<string, PlayerDetails>, ds: seq<PlayerDetails>)
    requires |ds| <= 9
    ensures forall i :: 1 <= i <= |ds| ==>
      PlayerName(i) in StoreHands(names, players, ds).1 && StoreHands(names, players, ds).1[PlayerName(i)] == ds[i - 1]
    ensures forall m :: m in players && m !in PlayerNames(|ds|) ==>
      m in StoreHands(names, players, ds).1 && StoreHands(names, players, ds).1[m] == players[m]
  {
    if ds != [] {
      var n := |ds|;
      var init := ds[..n - 1];
      StoreHandsValues(names, players, init);
      var before := StoreHands(names, players, init);
      var after := StoreHands(names, players, ds);
      assert after == Store(before.0, before.1, PlayerName(n), ds[n - 1]);
      forall i | 1 <= i <= n
        ensures PlayerName(i) in after.1 && after.1[PlayerName(i)] == ds[i - 1]
      {
        if i < n {
          PlayerNameInjective(i, n);
          assert init[i - 1] == ds[i - 1];
        }
      }
      assert PlayerNames(n) == PlayerNames(n - 1) + [PlayerName(n)];
      forall m | m in players && m !in PlayerNames(n)
        ensures m in after.1 && after.1[m] == players[m]
      {
        assert m != PlayerName(n);
      }
    }
  }

  /** Storing keeps the key order consistent with the dictionary. */
  lemma {:induction false} StoreHandsConsistent(names: seq<string>, players: map<string, PlayerDetails>, ds: seq<PlayerDetails>)
    requires Consistent(names, players)
    ensures Consistent(StoreHands(names, players, ds).0, StoreHands(names, players, ds).1)
  {
    if ds != [] {
      StoreHandsConsistent(names, players, ds[..|ds| - 1]);
    }
  }

  /** Starting from an empty dictionary the key order is player1, player2, ... */
  lemma {:induction false} StoreHandsFresh(ds: seq<PlayerDetails>)
    requires |ds| <= 9
    ensures StoreHands([], map[], ds).0 == PlayerNames(|ds|)
  {
    if ds != [] {
      var n := |ds|;
      StoreHandsFresh(ds[..n - 1]);
      StoreHandsKeys([], map[], ds[..n - 1]);
      var before := StoreHands([], map[], ds[..n - 1]);
      var earlier := PlayerNames(n - 1);
      assert forall m :: m in before.1 ==> m in earlier;
      forall k | 0 <= k < |earlier|
        ensures earlier[k] != PlayerName(n)
      {
        PlayerNamesAt(n - 1, k);
        PlayerNameInjective(k + 1, n);
      }
      assert PlayerName(n) !in before.1;
    }
  }

  /** After dealing, player i's entry holds the i-th hand dealt and that hand's category. */
  lemma StoredHandAt(names: seq<string>, players: map<string, PlayerDetails>, hands: seq<Hand>, i: int)
    requires |hands| <= 9 && 1 <= i <= |hands|
    ensures PlayerName(i) in StoreHands(names, players, DetailsOf(hands)).1
    ensures StoreHands(names, players, DetailsOf(hands)).1[PlayerName(i)] ==
      PlayerDetails(hands[i - 1], Evaluate(hands[i - 1]).category)
  {
    StoreHandsValues(names, players, DetailsOf(hands));
    DetailsOfAt(hands, i - 1);
  }

  /** The hands of the listed players, in the listed order. */
  function HandsOf(names: seq<string>, players: map<string, PlayerDetails>): (hs: seq<Hand>)
    requires forall n :: n in names ==> n in players
    ensures |hs| == |names|
    ensures forall k :: 0 <= k < |names| ==> hs[k] == players[names[k]].hand
  {
    if names == [] then []
    else HandsOf(names[..|names| - 1], players) + [players[names[|names| - 1]].hand]
  }

  /** The listed players, in the listed order, whose hand is exactly the given card list. */
  function HoldersOf(names: seq<string>, players: map<string, PlayerDetails>, hand: Hand): (hs: seq<string>)
    requires forall n :: n in names ==> n in players
    ensures forall k :: 0 <= k < |hs| ==> hs[k] in names && players[hs[k]].hand == hand
    ensures |hs| <= |names|
  {
    if names == [] then []
    else
      var last := names[|names| - 1];
      HoldersOf(names[..|names| - 1], players, hand) + (if players[last].hand == hand then [last] else [])
  }

  /** Every listed player holding the card list is a holder. */
  lemma {:induction false} HoldersOfComplete(names: seq<string>, players: map<string, PlayerDetails>, hand: Hand, k: int)
    requires forall n :: n in names ==> n in players
    requires 0 <= k < |names| && players[names[k]].hand == hand
    ensures names[k] in HoldersOf(names, players, hand)
  {
    if k < |names| - 1 {
      HoldersOfComplete(names[..|names| - 1], players, hand, k);
    }
  }

  /** There are as many holders as listed players holding the card list. */
  lemma {:induction false} HoldersOfCount(names: seq<string>, players: map<string, PlayerDetails>, hand: Hand)
    requires forall n :: n in names ==> n in players
    ensures |HoldersOf(names, players, hand)| == multiset(HandsOf(names, players))[hand]
  {
    if names != [] {
      var init := names[..|names| - 1];
      HoldersOfCount(init, players, hand);
      assert HandsOf(names, players) == HandsOf(init, players) + [players[names[|names| - 1]].hand];
    }
  }

  /** No listed player holds the hand: nobody is a holder. */
  lemma {:induction false} HoldersOfNone(names: seq<string>, players: map<string, PlayerDetails>, hand: Hand)
    requires forall n :: n in names ==> n in players
    requires forall k :: 0 <= k < |names| ==> players[names[k]].hand != hand
    ensures HoldersOf(names, players, hand) == []
  {
    if names != [] {
      HoldersOfNone(names[..|names| - 1], players, hand);
    }
  }

  /** The first holder is the first listed player holding the hand. */
  lemma {:induction false} HoldersOfFirst(names: seq<string>, players: map<string, PlayerDetails>, hand: Hand, b: int)
    requires forall n :: n in names ==> n in players
    requires 0 <= b < |names| && players[names[b]].hand == hand
    requires forall k :: 0 <= k < b ==> players[names[k]].hand != hand
    ensures HoldersOf(names, players, hand) != []
    ensures HoldersOf(names, players, hand)[0] == names[b]
  {
    var n := |names|;
    var init := names[..n - 1];
    if b == n - 1 {
      HoldersOfNone(init, players, hand);
    } else {
      HoldersOfFirst(init, players, hand, b);
    }
  }

  /** One line of the report per listed player, in the listed order. */
  function Entries(names: seq<string>, players: map<string, PlayerDetails>): (es: seq<PlayerEntry>)
    requires forall n :: n in names ==> n in players
    ensures |es| == |names|
    ensures forall k :: 0 <= k < |names| ==>
      es[k] == PlayerEntry(names[k], players[names[k]].hand, players[names[k]].handType)
  {
    if names == [] then []
    else
      var last := names[|names| - 1];
      Entries(names[..|names| - 1], players) + [PlayerEntry(last, players[last].hand, players[last].handType)]
  }

  /** After the scan of a prefix of the players: the player at position b holds the first best
      hand, and the winner list holds, in order, every player of the prefix holding that card list. */
  ghost predicate Scanned(names: seq<string>, players: map<string, PlayerDetails>, b: int, winners: seq<string>)
    requires forall n :: n in names ==> n in players
  {
    && 0 <= b < |names|
    && IsFirstBest(HandsOf(names, players), b)
    && winners == HoldersOf(names, players, players[names[b]].hand)
  }

  /** The scan's first step, and every step where the next hand beats the running best. */
  lemma ScanReplace(names: seq<string>, players: map<string, PlayerDetails>, i: int, b: int, winners: seq<string>)
    requires forall n :: n in names ==> n in players
    requires 0 <= i < |names|
    requires i == 0 || (Scanned(names[..i], players, b, winners) &&
                        Beats(players[names[i]].hand, players[names[b]].hand))
    ensures Scanned(names[..i + 1], players, i, [names[i]])
  {
    var hands := HandsOf(names, players);
    assert HandsOf(names[..i], players) == hands[..i];
    assert HandsOf(names[..i + 1], players) == hands[..i + 1];
    var hand := players[names[i]].hand;
    if i > 0 {
      NewFirstBest(hands, b, i);
      forall k | 0 <= k < i
        ensures players[names[..i][k]].hand != hand
      {
        assert hands[..i][k] == hands[k];
      }
      HoldersOfNone(names[..i], players, hand);
    }
    assert names[..i + 1][..i] == names[..i];
  }

  /** A step where the next hand does not beat the running best: the player joins the
      winners exactly when the hand is the same card list as the best. */
  lemma ScanKeep(names: seq<string>, players: map<string, PlayerDetails>, i: int, b: int, winners: seq<string>)
    requires forall n :: n in names ==> n in players
    requires 0 <= i < |names|
    requires Scanned(names[..i], players, b, winners)
    requires !Beats(players[names[i]].hand, players[names[b]].hand)
    ensures Scanned(names[..i + 1], players, b,
      if players[names[i]].hand == players[names[b]].hand then winners + [names[i]] else winners)
  {
    var hands := HandsOf(names, players);
    assert HandsOf(names[..i], players) == hands[..i];
    assert HandsOf(names[..i + 1], players) == hands[..i + 1];
    KeepFirstBest(hands, b, i);
    assert names[..i + 1][..i] == names[..i];
  }

  /** The winner scan over the players in dictionary order, followed by the tie sort.
      A player replaces the winners when their hand beats the running best; a player joins
      them only when their hand is the very same card list as the running best. */
  method SelectWinners(names: seq<string>, players: map<string, PlayerDetails>) returns (winners: seq<string>)
    requires forall n :: n in names ==> n in players
    ensures winners == [] <==> names == []
    ensures winners != [] ==> winners[0] in names
    ensures winners != [] ==> IsFirstBest(HandsOf(names, players), IndexOf(names, winners[0]))
    ensures winners != [] ==> winners == HoldersOf(names, players, players[winners[0]].hand)
    ensures winners != [] ==> forall k :: 0 <= k < |names| && players[names[k]].hand == players[winners[0]].hand ==>
      names[k] in winners
  {
    winners := [];
    var winningHand: seq<Rank> := [];
    ghost var b := 0;
    for i := 0 to |names|
      invariant winners == [] <==> i == 0
      invariant i > 0 ==> Scanned(names[..i], players, b, winners) && winningHand == players[names[b]].hand
    {
      var hand := players[names[i]].hand;
      if winners == [] || Beats(hand, winningHand) {
        ScanReplace(names, players, i, b, winners);
        winners := [names[i]];
        winningHand := hand;
        b := i;
      } else {
        ScanKeep(names, players, i, b, winners);
        if hand == winningHand {
          winners := winners + [names[i]];
        }
      }
    }
    if winners != [] {
      assert names[..|names|] == names;
      var hands := HandsOf(names, players);
      FirstBestIsFirstOccurrence(hands, b);
      HoldersOfFirst(names, players, winningHand, b);
      assert IndexOf(names, names[b]) == b;
      winners := SortTies(players, winners, winningHand);
      forall k | 0 <= k < |names| && players[names[k]].hand == winningHand
        ensures names[k] in winners
      {
        HoldersOfComplete(names, players, winningHand, k);
      }
    }
  }

  /** The tie sort by highest card, descending. Every winner holds the same card list, so
      all keys are equal and the stable sort leaves the winners in dealing order. */
  method SortTies(players: map<string, PlayerDetails>, winners: seq<string>, hand: Hand) returns (sorted: seq<string>)
    requires forall k :: 0 <= k < |winners| ==> winners[k] in players && players[winners[k]].hand == hand
    ensures sorted == winners
  {
    sorted := winners;
    if |winners| > 1 {
      var key := (n: string) => if n in players then HighestCard(players[n].hand) else 0;
      assert SortedDesc(winners, key);
      SortKeepsSortedInput(winners, key);
      sorted := SortByKeyDesc(winners, key);
    }
  }

  class CardGame {
    var deck: seq<Rank>
    var names: seq<string>    // the keys of the players dictionary, in insertion order
    var players: map<string, PlayerDetails>

    ghost predicate Valid()
      reads this
    {
      Consistent(names, players)
    }

    constructor()
      ensures Valid()
      ensures deck == [] && names == [] && players == map[]
    {
      deck := [];
      names := [];
      players := map[];
    }

    /** Appends four cards of each rank, rank by rank. */
    method InitializeDeck()
      requires Valid()
      modifies this
      ensures Valid()
      ensures deck == old(deck) + FullDeck()
      ensures names == old(names) && players == old(players)
    {
      for k := 0 to |Ranks|
        invariant deck == old(deck) + FourOfEach(Ranks[..k])
        invariant names == old(names) && players == old(players)
        invariant Valid()
      {
        var r := Ranks[k];
        assert Ranks[..k + 1][..k] == Ranks[..k];
        deck := deck + [r, r, r, r];
      }
      assert Ranks[..|Ranks|] == Ranks;
    }

    /** Puts the deck in the shuffled order, then deals hands for player1..player4, three cards
        each popped off the end of the deck, storing each hand with its category. A pop from
        an empty deck stops the deal and the hand being popped is lost. */
    method DealCards(shuffled: seq<Rank>) returns (outcome: DealOutcome)
      requires Valid()
      requires multiset(shuffled) == multiset(deck)
      modifies this
      ensures Valid()
      ensures outcome == Dealt <==> |shuffled| >= 12
      ensures outcome == Dealt ==>
        && deck == shuffled[..|shuffled| - 12]
        && (names, players) == StoreHands(old(names), old(players), DetailsOf(HandsFromEnd(shuffled, 4)))
      ensures outcome == EmptyDeck ==>
        && deck == []
        && (names, players) == StoreHands(old(names), old(players), DetailsOf(HandsFromEnd(shuffled, |shuffled| / 3)))
    {
      deck := shuffled;
      var n := |shuffled|;
      for p := 0 to 4
        invariant 3 * p <= n
        invariant deck == shuffled[..n - 3 * p]
        invariant (names, players) == StoreHands(old(names), old(players), DetailsOf(HandsFromEnd(shuffled, p)))
        invariant Valid()
      {
        var popped := DealTurn(shuffled, p, old(names), old(players));
        if !popped {
          assert n / 3 == p && n < 12;
          return EmptyDeck;
        }
      }
      outcome := Dealt;
    }

    /** Turn p of the deal: the deck has lost the p hands dealt so far, which are stored on top
        of the dictionary as it was before the deal; player p + 1 gets the next hand. */
    method DealTurn(shuffled: seq<Rank>, p: nat, ghost names0: seq<string>, ghost players0: map<string, PlayerDetails>)
        returns (popped: bool)
      requires Valid()
      requires 3 * p <= |shuffled| && deck == shuffled[..|shuffled| - 3 * p]
      requires (names, players) == StoreHands(names0, players0, DetailsOf(HandsFromEnd(shuffled, p)))
      modifies this
      ensures Valid()
      ensures popped <==> 3 * (p + 1) <= |shuffled|
      ensures popped ==>
        && deck == shuffled[..|shuffled| - 3 * (p + 1)]
        && (names, players) == StoreHands(names0, players0, DetailsOf(HandsFromEnd(shuffled, p + 1)))
      ensures !popped ==> deck == [] && names == old(names) && players == old(players)
    {
      popped := DealPlayer(p + 1);
      if popped {
        StoreNextHand(shuffled, p, names0, players0);
      }
    }

    /** Deals the hand of player i and stores it with its category, unless the deck runs out. */
    method DealPlayer(i: nat) returns (popped: bool)
      requires Valid()
      modifies this
      ensures Valid()
      ensures popped <==> |old(deck)| >= 3
      ensures popped ==>
        && deck == old(deck)[..|old(deck)| - 3]
        && (names, players) == Store(old(names), old(players), PlayerName(i),
             PlayerDetails(PopHand(old(deck)), Evaluate(PopHand(old(deck))).category))
      ensures !popped ==> deck == [] && names == old(names) && players == old(players)
    {
      var hand;
      hand, popped := PopThree();
      if popped {
        var dealt: Hand := hand;
        SetPlayer(PlayerName(i), PlayerDetails(dealt, Evaluate(dealt).category));
      }
    }

    /** Three pops off the end of the deck, in pop order. A pop from an empty deck fails,
        and the cards popped before it are lost with the hand. */
    method PopThree() returns (hand: seq<Rank>, popped: bool)
      modifies this
      ensures popped <==> |old(deck)| >= 3
      ensures popped ==> hand == PopHand(old(deck)) && deck == old(deck)[..|old(deck)| - 3]
      ensures !popped ==> deck == []
      ensures names == old(names) && players == old(players)
    {
      hand := [];
      for c := 0 to 3
        invariant |hand| == c <= |old(deck)|
        invariant deck == old(deck)[..|old(deck)| - c]
        invariant forall k :: 0 <= k < c ==> hand[k] == old(deck)[|old(deck)| - 1 - k]
        invariant names == old(names) && players == old(players)
      {
        if deck == [] {
          return hand, false;
        }
        hand := hand + [deck[|deck| - 1]];
        deck := deck[..|deck| - 1];
      }
      popped := true;
    }

    /** players[name] = details */
    method SetPlayer(name: string, details: PlayerDetails)
      requires Valid()
      modifies this
      ensures Valid()
      ensures (names, players) == Store(old(names), old(players), name, details)
      ensures deck == old(deck)
    {
      if name !in players {
        names := names + [name];
      }
      players := players[name := details];
    }

    /** One whole game on a fresh deck: build it, deal in the shuffled order, report every
        player and every tied winner. */
    method PlayGame(shuffled: seq<Rank>) returns (result: GameResult)
      requires Valid()
      requires multiset(shuffled) == multiset(deck + FullDeck())
      modifies this
      ensures Valid()
      ensures |shuffled| == |old(deck)| + 52
      ensures deck == shuffled[..|shuffled| - 12]
      ensures (names, players) == StoreHands(old(names), old(players), DetailsOf(HandsFromEnd(shuffled, 4)))
      ensures old(names) == [] && old(players) == map[] ==> names == PlayerNames(4)
      ensures forall n :: n in names ==> n in players
      ensures result.players == Entries(names, players)
      ensures result.winners != []
      ensures result.winners[0].player in names
      ensures IsFirstBest(HandsOf(names, players), IndexOf(names, result.winners[0].player))
      ensures result.winners ==
        Entries(HoldersOf(names, players, result.winners[0].hand), players)
    {
      ShuffledFreshDeck(shuffled, deck);
      InitializeDeck();
      var outcome := DealCards(shuffled);
      assert outcome == Dealt;
      StoreHandsConsistent(old(names), old(players), DetailsOf(HandsFromEnd(shuffled, 4)));
      if old(names) == [] && old(players) == map[] {
        StoreHandsFresh(DetailsOf(HandsFromEnd(shuffled, 4)));
      }
      StoreHandsKeys(old(names), old(players), DetailsOf(HandsFromEnd(shuffled, 4)));
      PlayerNamesAt(4, 0);
      assert PlayerName(1) in names;
      var winners := SelectWinners(names, players);
      result := GameResult(Entries(names, players), Entries(winners, players));
    }
  }
}
