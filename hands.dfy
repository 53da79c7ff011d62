// Ranks, the evaluation of a three-card hand and the comparison of two hands.
// Both front ends of the game (the command-line one and the web one) carry an
// identical copy of this logic; it is modelled once here.

module Hands {

  /** The thirteen ranks of the deck; suits play no part in the game. */
  datatype Rank = Two | Three | Four | Five | Six | Seven | Eight | Nine | Ten
                | Jack | Queen | King | Ace

  /** The string token the game stores for a rank in its deck list. */
  function Token(r: Rank): (t: string)
    ensures |t| == 1 <==> r != Ten
    ensures r == Ten ==> t == "10"
  {
    match r
    case Two => "2"
    case Three => "3"
    case Four => "4"
    case Five => "5"
    case Six => "6"
    case Seven => "7"
    case Eight => "8"
    case Nine => "9"
    case Ten => "10"
    case Jack => "J"
    case Queen => "Q"
    case King => "K"
    case Ace => "A"
  }

  /** The rank-to-number table: numbers stand for themselves, J..A are 11..14 (Ace high). */
  function NumericValue(r: Rank): (v: int)
    ensures 2 <= v <= 14
  {
    match r
    case Two => 2
    case Three => 3
    case Four => 4
    case Five => 5
    case Six => 6
    case Seven => 7
    case Eight => 8
    case Nine => 9
    case Ten => 10
    case Jack => 11
    case Queen => 12
    case King => 13
    case Ace => 14
  }

  /** Decimal numeral of a natural number, as Python's str() writes it. */
  function Decimal(n: nat): (s: string)
    ensures |s| >= 1
    ensures n < 10 ==> s == [('0' as int + n) as char]
  {
    if n < 10 then [('0' as int + n) as char]
    else Decimal(n / 10) + [('0' as int + n % 10) as char]
  }

  /** Two ranks with the same value are the same rank: the table is injective. */
  lemma NumericValueInjective(a: Rank, b: Rank)
    ensures NumericValue(a) == NumericValue(b) <==> a == b
  {
  }

  /** The table agrees with the tokens: '2'..'10' read as their own number, J=11, Q=12, K=13, A=14. */
  lemma NumericValueMatchesToken(r: Rank)
    ensures NumericValue(r) <= 10 <==> Token(r) == Decimal(NumericValue(r))
    ensures Token(r) == "J" <==> NumericValue(r) == 11
    ensures Token(r) == "Q" <==> NumericValue(r) == 12
    ensures Token(r) == "K" <==> NumericValue(r) == 13
    ensures Token(r) == "A" <==> NumericValue(r) == 14
  {
    var v := NumericValue(r);
    if v == 10 {
      assert Decimal(10) == Decimal(1) + ['0'];
    } else if v > 10 {
      assert Decimal(v) == Decimal(1) + [('0' as int + v % 10) as char];
      assert |Decimal(v)| == 2;
    }
  }

  /** A hand is exactly three cards, kept in the order they were dealt. */
  type Hand = h: seq<Rank> | |h| == 3 witness [Two, Two, Two]

  /** The four hand categories; the text is what the game reports as the hand type. */
  datatype Category = Trail | Sequence | Pair | HighCard {

    function Name(): (s: string)
      ensures |s| >= 4 && s[0] == "TSPH"[Ordinal()]
    {
      match this
      case Trail => "Trail"
      case Sequence => "Sequence"
      case Pair => "Pair"
      case HighCard => "High Card"
    }

    /** The game's type order: a lower number is a stronger category. */
    function Ordinal(): (k: nat)
      ensures k <= 3
    {
      match this
      case Trail => 0
      case Sequence => 1
      case Pair => 2
      case HighCard => 3
    }
  }

  /** Category names are pairwise different, so comparing names is comparing categories. */
  lemma CategoryNamesDistinct(c: Category, d: Category)
    ensures c.Name() == d.Name() <==> c == d
    ensures c.Ordinal() == d.Ordinal() <==> c == d
  {
  }

  /** The result of evaluating a hand: its category and a category-specific tiebreak value. */
  datatype Evaluation = Evaluation(category: Category, tiebreak: int)

  function Max(a: int, b: int): int {
    if a >= b then a else b
  }

  function Min(a: int, b: int): int {
    if a <= b then a else b
  }

  /** The largest card value in the hand. */
  function HighestCard(h: Hand): (m: int)
    ensures m == NumericValue(h[0]) || m == NumericValue(h[1]) || m == NumericValue(h[2])
    ensures forall i :: 0 <= i < 3 ==> NumericValue(h[i]) <= m
  {
    Max(Max(NumericValue(h[0]), NumericValue(h[1])), NumericValue(h[2]))
  }

  /** The smallest card value in the hand (used only to state properties). */
  ghost function LowestCard(h: Hand): (m: int)
    ensures m == NumericValue(h[0]) || m == NumericValue(h[1]) || m == NumericValue(h[2])
    ensures forall i :: 0 <= i < 3 ==> m <= NumericValue(h[i])
  {
    Min(Min(NumericValue(h[0]), NumericValue(h[1])), NumericValue(h[2]))
  }

  /** The three numbers in ascending order, as Python's sorted() returns them. */
  function Sorted3(a: int, b: int, c: int): (r: seq<int>)
    ensures |r| == 3 && r[0] <= r[1] <= r[2]
  {
    if a <= b then
      if b <= c then [a, b, c] else if a <= c then [a, c, b] else [c, a, b]
    else
      if a <= c then [b, a, c] else if b <= c then [b, c, a] else [c, b, a]
  }

  /** Sorting keeps the three numbers: the result is one of their six orderings. */
  lemma Sorted3Permutes(a: int, b: int, c: int)
    ensures var r := Sorted3(a, b, c);
      || r == [a, b, c] || r == [a, c, b] || r == [b, a, c]
      || r == [b, c, a] || r == [c, a, b] || r == [c, b, a]
  {
  }

  /** The card values of a hand, sorted ascending. */
  function SortedValues(h: Hand): (r: seq<int>)
    ensures |r| == 3 && r[0] <= r[1] <= r[2]
  {
    Sorted3(NumericValue(h[0]), NumericValue(h[1]), NumericValue(h[2]))
  }

  /** The table of runs the game accepts as a sequence; it starts at [1, 2, 3]. */
  const SequenceTable: seq<seq<int>> :=
    [[1, 2, 3], [2, 3, 4], [3, 4, 5], [4, 5, 6], [5, 6, 7], [6, 7, 8],
     [7, 8, 9], [8, 9, 10], [9, 10, 11], [10, 11, 12], [11, 12, 13], [12, 13, 14]]

  /** All three cards share one rank. */
  predicate IsTrail(h: Hand): (b: bool)
    ensures b ==> IsPair(h) && HighestCard(h) == NumericValue(h[0])
  {
    h[0] == h[1] && h[1] == h[2]
  }

  /** The sorted values are one of the table's windows: three consecutive values. */
  predicate IsSequence(h: Hand): (b: bool)
    ensures var s := SortedValues(h); b <==> s[1] == s[0] + 1 && s[2] == s[0] + 2
  {
    SequenceTableRuns(SortedValues(h));
    SortedValues(h) in SequenceTable
  }

  /** Some two of the three cards share a rank. */
  predicate IsPair(h: Hand): (b: bool)
    ensures !b ==> NumericValue(h[0]) != NumericValue(h[1]) && NumericValue(h[1]) != NumericValue(h[2]) &&
                   NumericValue(h[0]) != NumericValue(h[2])
  {
    h[0] == h[1] || h[1] == h[2] || h[0] == h[2]
  }

  /** Classification in the game's priority order, with its tiebreaks taken as written:
      a sequence is broken by the third card as dealt, a pair by the first card as dealt. */
  function Evaluate(h: Hand): (e: Evaluation)
    ensures 2 <= e.tiebreak <= HighestCard(h)
  {
    if IsTrail(h) then Evaluation(Trail, NumericValue(h[0]))
    else if IsSequence(h) then Evaluation(Sequence, NumericValue(h[2]))
    else if IsPair(h) then Evaluation(Pair, NumericValue(h[0]))
    else Evaluation(HighCard, HighestCard(h))
  }

  /** One number that orders hands as the comparison does: category first (stronger is
      larger), then the tiebreak, then the highest card; each of the last two is below 16. */
  function Score(h: Hand): (s: int)
    ensures 0 <= s < 4 * 256
  {
    (3 - Evaluate(h).category.Ordinal()) * 256 + Evaluate(h).tiebreak * 16 + HighestCard(h)
  }

  /** True when the first hand wins against the second: the comparison is the lexicographic
      order on (category, tiebreak, highest card). */
  predicate Beats(h1: Hand, h2: Hand): (b: bool)
    ensures b <==> Score(h1) > Score(h2)
  {
    var e1 := Evaluate(h1);
    var e2 := Evaluate(h2);
    CategoryNamesDistinct(e1.category, e2.category);
    if e1.category == e2.category then
      if e1.tiebreak != e2.tiebreak then e1.tiebreak > e2.tiebreak
      else HighestCard(h1) > HighestCard(h2)
    else
      e1.category.Ordinal() < e2.category.Ordinal()
  }

  // ---------------------------------------------------------------------------
  // The sequence table

  /** Membership in the table means: three consecutive integers starting at 1..12. */
  lemma SequenceTableRuns(s: seq<int>)
    ensures s in SequenceTable <==> |s| == 3 && 1 <= s[0] <= 12 && s[1] == s[0] + 1 && s[2] == s[0] + 2
  {
    if |s| == 3 && 1 <= s[0] <= 12 && s[1] == s[0] + 1 && s[2] == s[0] + 2 {
      assert s == [s[0], s[0] + 1, s[0] + 2];
      assert s == SequenceTable[s[0] - 1];
    }
  }

  /** The first window [1, 2, 3] of the table is dead: no rank has value 1. */
  lemma LowWindowUnreachable(h: Hand)
    ensures SortedValues(h) != [1, 2, 3]
    ensures IsSequence(h) ==> SortedValues(h)[0] >= 2
  {
    SequenceTableRuns(SortedValues(h));
  }

  /** A hand is a sequence exactly when its three values are distinct and span a width of two. */
  lemma SequenceIffRun(h: Hand)
    ensures IsSequence(h) <==>
      (NumericValue(h[0]) != NumericValue(h[1]) && NumericValue(h[1]) != NumericValue(h[2]) &&
       NumericValue(h[0]) != NumericValue(h[2]) && HighestCard(h) - LowestCard(h) == 2)
  {
    var s := SortedValues(h);
    SequenceTableRuns(s);
    Sorted3Permutes(NumericValue(h[0]), NumericValue(h[1]), NumericValue(h[2]));
    assert s[0] == LowestCard(h) && s[2] == HighestCard(h);
    if NumericValue(h[0]) != NumericValue(h[1]) && NumericValue(h[1]) != NumericValue(h[2]) &&
       NumericValue(h[0]) != NumericValue(h[2]) {
      assert s[0] < s[1] < s[2];
    }
  }

  // ---------------------------------------------------------------------------
  // Evaluation, stated by how often ranks repeat (independent of the order of the cards)

  /** How many cards of the hand have rank r. */
  function Count(h: Hand, r: Rank): nat {
    multiset(h)[r]
  }

  lemma CountCases(h: Hand, r: Rank)
    ensures Count(h, r) == (if h[0] == r then 1 else 0) + (if h[1] == r then 1 else 0) + (if h[2] == r then 1 else 0)
  {
    assert h == [h[0]] + [h[1]] + [h[2]];
    assert multiset(h) == multiset{h[0]} + multiset{h[1]} + multiset{h[2]};
  }

  /** The category is fixed by the largest number of cards sharing a rank, and for
      three different ranks by whether their values span a width of two. */
  lemma CategoryByMultiplicity(h: Hand)
    ensures Evaluate(h).category == Trail <==> Count(h, h[0]) == 3
    ensures Evaluate(h).category == Pair <==>
      (Count(h, h[0]) == 2 || Count(h, h[1]) == 2 || Count(h, h[2]) == 2)
    ensures Evaluate(h).category == Sequence <==>
      (forall i :: 0 <= i < 3 ==> Count(h, h[i]) == 1) && HighestCard(h) - LowestCard(h) == 2
    ensures Evaluate(h).category == HighCard <==>
      (forall i :: 0 <= i < 3 ==> Count(h, h[i]) == 1) && HighestCard(h) - LowestCard(h) != 2
  {
    CountCases(h, h[0]);
    CountCases(h, h[1]);
    CountCases(h, h[2]);
    SequenceIffRun(h);
    NumericValueInjective(h[0], h[1]);
    NumericValueInjective(h[1], h[2]);
    NumericValueInjective(h[0], h[2]);
  }

  /** A trail is never reported as a pair, although every trail satisfies the pair test. */
  lemma TrailOutranksPairTest(h: Hand)
    requires IsTrail(h)
    ensures IsPair(h)
    ensures Evaluate(h) == Evaluation(Trail, NumericValue(h[0]))
    ensures Evaluate(h).tiebreak == HighestCard(h) == LowestCard(h)
  {
  }

  /** What the tiebreak is, category by category. */
  lemma TiebreakByCategory(h: Hand)
    ensures Evaluate(h).category == Trail ==>
      forall i :: 0 <= i < 3 ==> Evaluate(h).tiebreak == NumericValue(h[i])
    ensures Evaluate(h).category == Sequence ==>
      Evaluate(h).tiebreak == NumericValue(h[2]) && LowestCard(h) <= Evaluate(h).tiebreak
    ensures Evaluate(h).category == Pair ==> Evaluate(h).tiebreak == NumericValue(h[0])
    ensures Evaluate(h).category == HighCard ==>
      Evaluate(h).tiebreak == HighestCard(h) && Evaluate(h).tiebreak - LowestCard(h) >= 3
  {
    SequenceIffRun(h);
    if Evaluate(h).category == HighCard {
      NumericValueInjective(h[0], h[1]);
      NumericValueInjective(h[1], h[2]);
      NumericValueInjective(h[0], h[2]);
    }
  }

  /** Worked examples of the classification, including the as-dealt tiebreaks. */
  lemma EvaluateExamples()
    ensures Evaluate([Four, Six, Five]) == Evaluation(Sequence, 5)
    ensures Evaluate([Four, Five, Six]) == Evaluation(Sequence, 6)
    ensures Evaluate([Ten, Jack, Queen]) == Evaluation(Sequence, 12)
    ensures Evaluate([Queen, King, Ace]).category == Sequence
    ensures Evaluate([Three, Five, Five]) == Evaluation(Pair, 3)
    ensures Evaluate([Queen, Queen, Queen]) == Evaluation(Trail, 12)
    ensures Evaluate([Ace, King, Nine]) == Evaluation(HighCard, 14)
  {
    SequenceTableRuns([4, 5, 6]);
    SequenceTableRuns([10, 11, 12]);
    SequenceTableRuns([12, 13, 14]);
    SequenceTableRuns([3, 5, 5]);
    SequenceTableRuns([12, 12, 12]);
    SequenceTableRuns([9, 13, 14]);
  }

  // ---------------------------------------------------------------------------
  // Comparison

  /** Hands that neither beats the other are those of equal score: a tie on all three keys. */
  lemma TieIffEqualScore(h1: Hand, h2: Hand)
    ensures !Beats(h1, h2) && !Beats(h2, h1) <==> Score(h1) == Score(h2)
  {
  }

  /** No hand beats itself, and of two hands at most one beats the other. */
  lemma BeatsAsymmetric(h1: Hand, h2: Hand)
    ensures !Beats(h1, h1)
    ensures Beats(h1, h2) ==> !Beats(h2, h1)
  {
  }

  /** Beating is transitive, and a hand that does not beat b is beaten by whatever beats b. */
  lemma BeatsTransitive(a: Hand, b: Hand, c: Hand)
    ensures Beats(a, b) && Beats(b, c) ==> Beats(a, c)
    ensures Beats(a, b) && !Beats(c, b) ==> Beats(a, c) && !Beats(c, a)
    ensures !Beats(a, b) && !Beats(b, c) ==> !Beats(a, c)
  {
  }

  /** Between different categories the lower type-order number wins, whatever the cards. */
  lemma BeatsByCategory(h1: Hand, h2: Hand)
    requires Evaluate(h1).category != Evaluate(h2).category
    ensures Beats(h1, h2) <==> Evaluate(h1).category.Ordinal() < Evaluate(h2).category.Ordinal()
    ensures Beats(h1, h2) || Beats(h2, h1)
  {
    CategoryNamesDistinct(Evaluate(h1).category, Evaluate(h2).category);
  }

  /** With equal category and tiebreak the highest card decides; if that is equal too, neither wins. */
  lemma BeatsFallback(h1: Hand, h2: Hand)
    requires Evaluate(h1) == Evaluate(h2)
    ensures Beats(h1, h2) <==> HighestCard(h1) > HighestCard(h2)
    ensures HighestCard(h1) == HighestCard(h2) ==> !Beats(h1, h2) && !Beats(h2, h1)
  {
  }

  /** Worked examples: category precedence, and the as-dealt tiebreaks of sequences and pairs. */
  lemma BeatsExamples()
    ensures Beats([Two, Two, Two], [Ace, King, Nine])
    ensures Beats([Five, Five, Three], [Three, Five, Five])
    ensures Beats([Four, Two, Two], [Three, Five, Five])
    ensures Beats([Four, Five, Six], [Six, Four, Five])
    ensures !Beats([Five, Three, Five], [Five, Five, Three])
  {
    EvaluateExamples();
    SequenceTableRuns([4, 5, 6]);
    SequenceTableRuns([2, 2, 4]);
    SequenceTableRuns([3, 5, 5]);
    SequenceTableRuns([2, 2, 2]);
    SequenceTableRuns([9, 13, 14]);
  }

  // ---------------------------------------------------------------------------
  // The best hand among the players

  /** Player i holds a hand no other player beats, and every earlier player holds a weaker one:
      i is the first position of a strongest hand. */
  predicate IsFirstBest(hands: seq<Hand>, i: int) {
    && 0 <= i < |hands|
    && (forall j {:trigger Beats(hands[j], hands[i])} :: 0 <= j < |hands| ==> !Beats(hands[j], hands[i]))
    && (forall j {:trigger Beats(hands[i], hands[j])} :: 0 <= j < i ==> Beats(hands[i], hands[j]))
  }

  /** There is at most one first position of a strongest hand. */
  lemma FirstBestUnique(hands: seq<Hand>, i: int, k: int)
    requires IsFirstBest(hands, i) && IsFirstBest(hands, k)
    ensures i == k
  {
    var kBeatsI, iBeatsK := Beats(hands[k], hands[i]), Beats(hands[i], hands[k]);
    assert i < k ==> kBeatsI;
    assert k < i ==> iBeatsK;
  }

  /** A hand that beats the first best of a prefix is the first best of the prefix extended by it,
      and none of the earlier hands is the same card list. */
  lemma NewFirstBest(hands: seq<Hand>, w: int, i: int)
    requires 0 <= i < |hands|
    requires IsFirstBest(hands[..i], w) && Beats(hands[i], hands[w])
    ensures IsFirstBest(hands[..i + 1], i)
    ensures hands[i] !in hands[..i]
  {
    var before, after := hands[..i], hands[..i + 1];
    forall j | 0 <= j < i
      ensures Beats(after[i], after[j]) && !Beats(after[j], after[i])
    {
      assert before[j] == after[j] == hands[j] && before[w] == hands[w];
      assert !Beats(before[j], before[w]);
      BeatsTransitive(hands[i], hands[w], hands[j]);
    }
    BeatsAsymmetric(hands[i], hands[i]);
    assert after[i] == hands[i];
  }

  /** A hand that does not beat the first best of a prefix leaves it the first best. */
  lemma KeepFirstBest(hands: seq<Hand>, w: int, i: int)
    requires 0 <= i < |hands|
    requires IsFirstBest(hands[..i], w) && !Beats(hands[i], hands[w])
    ensures IsFirstBest(hands[..i + 1], w)
  {
    assert forall j :: 0 <= j < i ==> hands[..i][j] == hands[j];
  }

  /** The first best is not the same card list as any hand before it. */
  lemma FirstBestIsFirstOccurrence(hands: seq<Hand>, w: int)
    requires IsFirstBest(hands, w)
    ensures forall j :: 0 <= j < w ==> hands[j] != hands[w]
  {
    forall j | 0 <= j < w
      ensures hands[j] != hands[w]
    {
      BeatsAsymmetric(hands[w], hands[j]);
    }
  }
}
