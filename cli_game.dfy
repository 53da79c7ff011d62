// The command-line variant of the game: players are a list of hands, and one
// game reports a single winner by player number.

module CliGame {
  import opened Hands
  import opened Deck
  import opened ListOps

  datatype Option<T> = None | Some(value: T)

  /** What one game reports: every player's hand, and the winner's number, hand and hand type. */
  datatype GameResult = GameResult(players: seq<Hand>, winnerNumber: nat, winnerHand: Hand, winnerType: Category)

  /** The hands of hs that are the very same card list as h, in order. */
  function TiedHands(hs: seq<Hand>, h: Hand): (r: seq<Hand>)
    ensures |r| <= |hs|
    ensures forall k :: 0 <= k < |r| ==> r[k] == h
  {
    if hs == [] then []
    else
      var last := hs[|hs| - 1];
      TiedHands(hs[..|hs| - 1], h) + (if last == h then [last] else [])
  }

  /** The tie list holds h once for every time it occurs in hs. */
  lemma {:induction false} TiedHandsCount(hs: seq<Hand>, h: Hand)
    ensures |TiedHands(hs, h)| == multiset(hs)[h]
  {
    if hs != [] {
      var init, last := hs[..|hs| - 1], hs[|hs| - 1];
      TiedHandsCount(init, h);
      assert hs == init + [last];
    }
  }

  /** Extending the prefix by one hand extends the tie list when that hand is h. */
  lemma TiedHandsStep(hs: seq<Hand>, i: int, h: Hand)
    requires 0 <= i < |hs|
    ensures TiedHands(hs[..i + 1], h) == TiedHands(hs[..i], h) + (if hs[i] == h then [hs[i]] else [])
  {
    PrefixOfPrefix(hs, i + 1, i);
  }

  /** A hand that does not occur before position i is alone in the tie list of hs[..i + 1]. */
  lemma TiedHandsFirst(hs: seq<Hand>, i: int)
    requires 0 <= i < |hs| && hs[i] !in hs[..i]
    ensures TiedHands(hs[..i + 1], hs[i]) == [hs[i]]
  {
    TiedHandsStep(hs, i, hs[i]);
    TiedHandsCount(hs[..i], hs[i]);
  }

  /** After the scan of a prefix of the players: player w holds the first best hand of the
      prefix, and the tie list is every hand of the prefix that is that same card list. */
  ghost predicate Scanned(prefix: seq<Hand>, w: int, winningHands: seq<Hand>) {
    && 1 <= w <= |prefix|
    && IsFirstBest(prefix, w - 1)
    && winningHands == TiedHands(prefix, prefix[w - 1])
    && winningHands != []
  }

  /** The scan's first step, and every step where the next hand beats the running best. */
  lemma ScanReplace(players: seq<Hand>, i: int, w: int, winningHands: seq<Hand>)
    requires 0 <= i < |players|
    requires i == 0 || (Scanned(players[..i], w, winningHands) && Beats(players[i], winningHands[0]))
    ensures Scanned(players[..i + 1], i + 1, [players[i]])
  {
    if i > 0 {
      assert winningHands[0] == players[..i][w - 1] == players[w - 1];
      NewFirstBest(players, w - 1, i);
    }
    TiedHandsFirst(players, i);
    assert players[..i + 1][i] == players[i];
  }

  /** A step where the next hand does not beat the running best: the tie list grows
      exactly when the hand is the same card list as the best. */
  lemma ScanKeep(players: seq<Hand>, i: int, w: int, winningHands: seq<Hand>)
    requires 0 <= i < |players|
    requires Scanned(players[..i], w, winningHands) && !Beats(players[i], winningHands[0])
    ensures Scanned(players[..i + 1], w,
      if players[i] == winningHands[0] then winningHands + [players[i]] else winningHands)
  {
    assert winningHands[0] == players[..i][w - 1] == players[w - 1];
    KeepFirstBest(players, w - 1, i);
    TiedHandsStep(players, i, players[w - 1]);
  }

  /** The scan of every player. */
  lemma ScanDone(players: seq<Hand>, w: int, winningHands: seq<Hand>)
    requires Scanned(players[..|players|], w, winningHands)
    ensures 1 <= w <= |players| && IsFirstBest(players, w - 1)
    ensures winningHands == TiedHands(players, players[w - 1])
    ensures |winningHands| == multiset(players)[players[w - 1]] >= 1
  {
    assert players[..|players|] == players;
    TiedHandsCount(players, players[w - 1]);
  }

  /** The winner scan over the players in dealing order, followed by the tie step. */
  method FindWinner(players: seq<Hand>) returns (winner: Option<nat>, winningHands: seq<Hand>)
    ensures winner == None <==> players == []
    ensures winner == None ==> winningHands == []
    ensures winner.Some? ==> 1 <= winner.value <= |players| && IsFirstBest(players, winner.value - 1)
    ensures winner.Some? ==> winningHands == TiedHands(players, players[winner.value - 1])
    ensures winner.Some? ==> |winningHands| == multiset(players)[players[winner.value - 1]] >= 1
  {
    winner, winningHands := ScanPlayers(players);
    if winner.Some? {
      var w := winner.value;
      ScanDone(players, w, winningHands);
      winner, winningHands := BreakTie(players, w, winningHands);
    }
  }

  /** The scan itself. A later hand replaces the running best only when it beats it; a hand
      joins the tie list only when it is the very same card list as the running best. */
  method ScanPlayers(players: seq<Hand>) returns (winner: Option<nat>, winningHands: seq<Hand>)
    ensures winner == None <==> players == []
    ensures winner == None ==> winningHands == []
    ensures winner.Some? ==> Scanned(players[..|players|], winner.value, winningHands)
  {
    winner := None;
    winningHands := [];
    for i := 0 to |players|
      invariant winner == None <==> i == 0
      invariant winner == None ==> winningHands == []
      invariant winner.Some? ==> Scanned(players[..i], winner.value, winningHands)
    {
      var player := players[i];
      if winner == None || Beats(player, winningHands[0]) {
        ScanReplace(players, i, if winner == None then 0 else winner.value, winningHands);
        winner := Some(i + 1);
        winningHands := [player];
      } else {
        ScanKeep(players, i, winner.value, winningHands);
        if player == winningHands[0] {
          winningHands := winningHands + [player];
        }
      }
    }
  }

  /** The tie step: tied hands are sorted by highest card, descending, and the winner
      becomes the first player holding the top tied hand. Tied hands are all the same card
      list, so the sort keeps them as they are and the winner stays the scan's winner. */
  method BreakTie(players: seq<Hand>, winner: nat, winningHands: seq<Hand>)
      returns (newWinner: Option<nat>, newWinningHands: seq<Hand>)
    requires 1 <= winner <= |players| && IsFirstBest(players, winner - 1)
    requires winningHands != []
    requires forall k :: 0 <= k < |winningHands| ==> winningHands[k] == players[winner - 1]
    ensures newWinner == Some(winner)
    ensures newWinningHands == winningHands
  {
    newWinner, newWinningHands := Some(winner), winningHands;
    if |winningHands| > 1 {
      assert SortedDesc(winningHands, HighestCard);
      SortKeepsSortedInput(winningHands, HighestCard);
      newWinningHands := SortByKeyDesc(winningHands, HighestCard);
      FirstBestIsFirstOccurrence(players, winner - 1);
      newWinner := Some(IndexOf(players, newWinningHands[0]) + 1);
    }
  }

  class CardGame {
    var deck: seq<Rank>
    var players: seq<Hand>

    constructor()
      ensures deck == [] && players == []
    {
      deck := [];
      players := [];
    }

    /** Appends four cards of each rank, rank by rank. */
    method InitializeDeck()
      modifies this
      ensures deck == old(deck) + FullDeck()
      ensures players == old(players)
    {
      for k := 0 to |Ranks|
        invariant deck == old(deck) + FourOfEach(Ranks[..k])
        invariant players == old(players)
      {
        var r := Ranks[k];
        assert Ranks[..k + 1][..k] == Ranks[..k];
        deck := deck + [r, r, r, r];
      }
      assert Ranks[..|Ranks|] == Ranks;
    }

    /** Puts the deck in the shuffled order, then deals four hands of three cards, each card
        popped off the end of the deck. A pop from an empty deck stops the deal: the
        hand being popped is lost and only the complete hands before it were appended. */
    method DealCards(shuffled: seq<Rank>) returns (outcome: DealOutcome)
      requires multiset(shuffled) == multiset(deck)
      modifies this
      ensures outcome == Dealt <==> |shuffled| >= 12
      ensures outcome == Dealt ==>
        deck == shuffled[..|shuffled| - 12] && players == old(players) + HandsFromEnd(shuffled, 4)
      ensures outcome == EmptyDeck ==>
        deck == [] && players == old(players) + HandsFromEnd(shuffled, |shuffled| / 3)
    {
      deck := shuffled;
      var n := |shuffled|;
      for p := 0 to 4
        invariant 3 * p <= n
        invariant deck == shuffled[..n - 3 * p]
        invariant players == old(players) + HandsFromEnd(shuffled, p)
      {
        var hand: seq<Rank> := [];
        for c := 0 to 3
          invariant |hand| == c && 3 * p + c <= n
          invariant deck == shuffled[..n - 3 * p - c]
          invariant forall k :: 0 <= k < c ==> hand[k] == shuffled[n - 1 - 3 * p - k]
          invariant players == old(players) + HandsFromEnd(shuffled, p)
        {
          if deck == [] {
            assert n == 3 * p + c;
            assert n / 3 == p && n < 12;
            return EmptyDeck;
          }
          hand := hand + [deck[|deck| - 1]];
          deck := deck[..|deck| - 1];
        }
        var dealt: Hand := PopHand(shuffled[..n - 3 * p]);
        assert hand == dealt;
        assert HandsFromEnd(shuffled, p + 1) == HandsFromEnd(shuffled, p) + [dealt];
        players := players + [dealt];
      }
      outcome := Dealt;
    }

    /** One whole game on a fresh deck: build it, deal in the shuffled order, pick the winner. */
    method PlayGame(shuffled: seq<Rank>) returns (result: GameResult)
      requires multiset(shuffled) == multiset(deck + FullDeck())
      modifies this
      ensures |shuffled| == |old(deck)| + 52
      ensures deck == shuffled[..|shuffled| - 12]
      ensures players == old(players) + HandsFromEnd(shuffled, 4)
      ensures result.players == players
      ensures 1 <= result.winnerNumber <= |players|
      ensures result.winnerHand == players[result.winnerNumber - 1]
      ensures IsFirstBest(players, result.winnerNumber - 1)
      ensures result.winnerType == Evaluate(result.winnerHand).category
    {
      ShuffledFreshDeck(shuffled, deck);
      InitializeDeck();
      var outcome := DealCards(shuffled);
      assert outcome == Dealt;
      result := Report(players);
    }
  }

  /** The winner scan and the report built from it: every hand, and the winner's number,
      hand and hand type. */
  method Report(players: seq<Hand>) returns (result: GameResult)
    requires players != []
    ensures result.players == players
    ensures 1 <= result.winnerNumber <= |players|
    ensures result.winnerHand == players[result.winnerNumber - 1]
    ensures IsFirstBest(players, result.winnerNumber - 1)
    ensures result.winnerType == Evaluate(result.winnerHand).category
  {
    var winner, winningHands := FindWinner(players);
    var best := winningHands[0];
    result := GameResult(players, winner.value, best, Evaluate(best).category);
  }
}
