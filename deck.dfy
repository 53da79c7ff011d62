// The deck the game builds, and dealing three-card hands off the end of it.

module Deck {
  import opened Hands

  /** The ranks in the order the deck is built. */
  const Ranks: seq<Rank> := [Two, Three, Four, Five, Six, Seven, Eight, Nine, Ten, Jack, Queen, King, Ace]

  /** Four copies of each rank of rs, rank by rank, in the order of rs. */
  function FourOfEach(rs: seq<Rank>): (cards: seq<Rank>)
    ensures |cards| == 4 * |rs|
    ensures forall k :: 0 <= k < |cards| ==> cards[k] == rs[k / 4]
  {
    if rs == [] then []
    else
      var r := rs[|rs| - 1];
      var before := FourOfEach(rs[..|rs| - 1]);
      assert forall k :: 4 * (|rs| - 1) <= k < 4 * |rs| ==> k / 4 == |rs| - 1;
      before + [r, r, r, r]
  }

  /** What building the deck appends: four cards of every rank, card k of rank k / 4 in the
      rank list, so the values run 2, 2, 2, 2, 3, ... 14. */
  function FullDeck(): (cards: seq<Rank>)
    ensures |cards| == 52
    ensures forall k :: 0 <= k < 52 ==> NumericValue(cards[k]) == k / 4 + 2
  {
    assert forall k :: 0 <= k < 52 ==> 0 <= k / 4 < 13;
    forall k | 0 <= k < 52 { RanksByValue(k / 4); }
    FourOfEach(Ranks)
  }

  lemma {:induction false} FourOfEachCounts(rs: seq<Rank>, r: Rank)
    ensures |FourOfEach(rs)| == 4 * |rs|
    ensures multiset(FourOfEach(rs))[r] == 4 * multiset(rs)[r]
  {
    if rs != [] {
      var last, init := rs[|rs| - 1], rs[..|rs| - 1];
      FourOfEachCounts(init, r);
      SplitLast(rs);
      CountFour(last, r);
    }
  }

  lemma SplitLast<T>(s: seq<T>)
    requires s != []
    ensures s == s[..|s| - 1] + [s[|s| - 1]]
  {
  }

  lemma CountFour<T>(x: T, y: T)
    ensures multiset([x, x, x, x])[y] == if x == y then 4 else 0
  {
    assert [x, x, x, x] == [x] + [x] + [x] + [x];
  }

  /** The rank list runs through the values 2..14 in increasing order. */
  lemma RanksByValue(j: int)
    requires 0 <= j < |Ranks|
    ensures NumericValue(Ranks[j]) == j + 2
  {
  }

  /** Every rank occurs exactly once in the rank list. */
  lemma RanksOnce(r: Rank)
    ensures multiset(Ranks)[r] == 1
  {
    var i := NumericValue(r) - 2;
    RanksByValue(i);
    NumericValueInjective(Ranks[i], r);
    forall j | 0 <= j < |Ranks| && j != i
      ensures Ranks[j] != r
    {
      RanksByValue(j);
    }
    OccursOnce(Ranks, i);
  }

  lemma OccursOnce<T>(s: seq<T>, i: int)
    requires 0 <= i < |s|
    requires forall j :: 0 <= j < |s| && j != i ==> s[j] != s[i]
    ensures multiset(s)[s[i]] == 1
  {
    var before, after := s[..i], s[i + 1..];
    assert s == before + [s[i]] + after;
    assert s[i] !in before;
    assert s[i] !in after;
  }

  /** The full deck is 52 cards, exactly four of each of the thirteen ranks. */
  lemma FullDeckComposition()
    ensures |FullDeck()| == 52
    ensures forall r :: multiset(FullDeck())[r] == 4
  {
    forall r: Rank ensures multiset(FullDeck())[r] == 4 {
      FourOfEachCounts(Ranks, r);
      RanksOnce(r);
    }
    FourOfEachCounts(Ranks, Two);
  }

  /** A shuffle of the deck after building it holds 52 more cards than the deck before. */
  lemma ShuffledFreshDeck(shuffled: seq<Rank>, deck: seq<Rank>)
    requires multiset(shuffled) == multiset(deck + FullDeck())
    ensures |shuffled| == |deck| + 52
  {
    FullDeckComposition();
    assert |multiset(shuffled)| == |deck + FullDeck()|;
  }

  /** The three cards that three successive pops take off the end of the deck, in pop order. */
  function PopHand(deck: seq<Rank>): (h: Hand)
    requires |deck| >= 3
    ensures forall k :: 0 <= k < 3 ==> h[k] == deck[|deck| - 1 - k]
  {
    [deck[|deck| - 1], deck[|deck| - 2], deck[|deck| - 3]]
  }

  /** A popped hand and what is left of the deck hold the cards the deck held. */
  lemma PopHandKeepsCards(deck: seq<Rank>)
    requires |deck| >= 3
    ensures multiset(PopHand(deck)) + multiset(deck[..|deck| - 3]) == multiset(deck)
  {
    var n := |deck|;
    var h := PopHand(deck);
    assert deck == deck[..n - 3] + [deck[n - 3]] + [deck[n - 2]] + [deck[n - 1]];
    assert h == [deck[n - 1]] + [deck[n - 2]] + [deck[n - 3]];
  }

  /** The first n hands dealt from the end of the deck, each popped card by card. */
  function HandsFromEnd(deck: seq<Rank>, n: nat): (hs: seq<Hand>)
    requires 3 * n <= |deck|
    ensures |hs| == n
  {
    if n == 0 then []
    else HandsFromEnd(deck, n - 1) + [PopHand(deck[..|deck| - 3 * (n - 1)])]
  }

  /** Hand k holds the cards at distance 3k, 3k+1 and 3k+2 from the end of the deck, in that order. */
  lemma {:induction false} HandsFromEndAt(deck: seq<Rank>, n: nat, k: nat)
    requires 3 * n <= |deck| && k < n
    ensures HandsFromEnd(deck, n)[k] ==
      [deck[|deck| - 1 - 3 * k], deck[|deck| - 2 - 3 * k], deck[|deck| - 3 - 3 * k]]
  {
    var hs := HandsFromEnd(deck, n);
    assert hs == HandsFromEnd(deck, n - 1) + [PopHand(deck[..|deck| - 3 * (n - 1)])];
    if k < n - 1 {
      HandsFromEndAt(deck, n - 1, k);
      assert hs[k] == HandsFromEnd(deck, n - 1)[k];
    } else {
      var rest := deck[..|deck| - 3 * k];
      var m := |deck| - 3 * k;
      assert |rest| == m;
      assert hs[k] == PopHand(rest) == [rest[m - 1], rest[m - 2], rest[m - 3]];
      assert rest[m - 1] == deck[m - 1] && rest[m - 2] == deck[m - 2] && rest[m - 3] == deck[m - 3];
    }
  }

  /** All the cards of a list of hands, hand after hand. */
  function Cards(hs: seq<Hand>): (cs: seq<Rank>)
    ensures |cs| == 3 * |hs|
  {
    if hs == [] then [] else Cards(hs[..|hs| - 1]) + hs[|hs| - 1]
  }

  /** Dealing one more hand appends its cards to those already dealt. */
  lemma CardsStep(deck: seq<Rank>, n: nat)
    requires 1 <= n && 3 * n <= |deck|
    ensures Cards(HandsFromEnd(deck, n)) ==
      Cards(HandsFromEnd(deck, n - 1)) + PopHand(deck[..|deck| - 3 * (n - 1)])
  {
    var hs := HandsFromEnd(deck, n);
    assert hs[..n - 1] == HandsFromEnd(deck, n - 1);
  }

  /** Dealing n hands loses and duplicates no card: the hands and the rest of the deck together
      hold exactly the cards of the deck before dealing. */
  lemma {:induction false} DealConservesCards(deck: seq<Rank>, n: nat)
    requires 3 * n <= |deck|
    ensures multiset(Cards(HandsFromEnd(deck, n))) + multiset(deck[..|deck| - 3 * n]) == multiset(deck)
  {
    if n == 0 {
      assert deck[..|deck|] == deck;
    } else {
      var m := |deck| - 3 * (n - 1);
      var rest := deck[..m];
      var left := deck[..m - 3];
      DealConservesCards(deck, n - 1);
      CardsStep(deck, n);
      PopHandKeepsCards(rest);
      PrefixOfPrefix(deck, m, m - 3);
      assert rest[..|rest| - 3] == left;
      Regroup(multiset(Cards(HandsFromEnd(deck, n - 1))), multiset(PopHand(rest)),
        multiset(left), multiset(rest), multiset(deck));
      assert left == deck[..|deck| - 3 * n];
    }
  }

  lemma PrefixOfPrefix<T>(s: seq<T>, i: int, j: int)
    requires 0 <= j <= i <= |s|
    ensures s[..i][..j] == s[..j]
  {
  }

  lemma Regroup<T>(a: multiset<T>, b: multiset<T>, c: multiset<T>, d: multiset<T>, total: multiset<T>)
    requires b + c == d && a + d == total
    ensures a + b + c == total
  {
  }

  /** Among the dealt hands no rank appears more often than the deck held it. */
  lemma DealtWithinDeck(deck: seq<Rank>, n: nat, r: Rank)
    requires 3 * n <= |deck|
    ensures multiset(Cards(HandsFromEnd(deck, n)))[r] <= multiset(deck)[r]
  {
    DealConservesCards(deck, n);
  }

  /** Dealing stops with this outcome when a pop finds the deck empty. */
  datatype DealOutcome = Dealt | EmptyDeck
}
