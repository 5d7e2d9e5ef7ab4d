/** The layout generator: the deck of pair values for a level and the cards
    that carry them. Cell sizing and the object pool are not modelled. */
module Layout {
  import opened Cards
  import CSharp

  /** The deck before the shuffle: 0, 0, 1, 1, ..., p-1, p-1. */
  function Pairs(p: nat): (r: seq<int>)
    ensures |r| == 2 * p
  {
    if p == 0 then [] else Pairs(p - 1) + [p - 1, p - 1]
  }

  /** Position k of the unshuffled deck holds k / 2. */
  lemma {:induction false} PairsAt(p: nat, k: nat)
    requires k < 2 * p
    ensures Pairs(p)[k] == k / 2
  {
    if k < 2 * (p - 1) {
      PairsAt(p - 1, k);
    }
  }

  /** Every value in [0, p) occurs in the deck exactly twice, nothing else occurs. */
  lemma {:induction false} PairsCount(p: nat, v: int)
    ensures multiset(Pairs(p))[v] == if 0 <= v < p then 2 else 0
  {
    if p > 0 {
      var s := Pairs(p - 1);
      assert Pairs(p) == s + [p - 1, p - 1];
      PairsCount(p - 1, v);
      AppendPairCount(s, p, v);
    }
  }

  /** Appending the pair p-1, p-1 to a deck of p-1 pairs gives a deck of p pairs, at value v. */
  lemma AppendPairCount(s: seq<int>, p: int, v: int)
    requires p > 0
    requires multiset(s)[v] == if 0 <= v < p - 1 then 2 else 0
    ensures multiset(s + [p - 1, p - 1])[v] == if 0 <= v < p then 2 else 0
  {
    assert multiset(s + [p - 1, p - 1]) == multiset(s) + multiset{p - 1, p - 1};
  }

  /** A deck of p pairs, in any order: every value in [0, p) occurs exactly
      twice and no other value occurs. */
  ghost predicate IsDeck(values: seq<int>, p: int)
  {
    forall v :: multiset(values)[v] == if 0 <= v < p then 2 else 0
  }

  /** A deck of p pairs is exactly a permutation of 0, 0, 1, 1, ..., p-1, p-1. */
  lemma IsDeckIsPermutationOfPairs(values: seq<int>, p: nat)
    ensures IsDeck(values, p) <==> multiset(values) == multiset(Pairs(p))
  {
    forall v
      ensures multiset(Pairs(p))[v] == if 0 <= v < p then 2 else 0
    {
      PairsCount(p, v);
    }
    if IsDeck(values, p) {
      assert forall v :: multiset(values)[v] == multiset(Pairs(p))[v];
    }
  }

  /** A deck of p pairs has 2p cards, each with a value in [0, p). */
  lemma DeckShape(values: seq<int>, p: int)
    requires IsDeck(values, p)
    ensures |values| == if p > 0 then 2 * p else 0
    ensures forall k :: 0 <= k < |values| ==> 0 <= values[k] < p
  {
    var n: nat := if p > 0 then p else 0;
    assert IsDeck(values, n);
    IsDeckIsPermutationOfPairs(values, n);
    assert |values| == |multiset(values)| == |multiset(Pairs(n))| == |Pairs(n)|;
    forall k | 0 <= k < |values|
      ensures 0 <= values[k] < p
    {
      assert multiset(values)[values[k]] > 0;
    }
  }

  /** GenerateCardValues: the pairs 0,0,...,p-1,p-1 shuffled by the
      descending Fisher-Yates swap loop. The random index in [0, i] is a
      nondeterministic choice, so the contract holds for every outcome of
      the random source. A count of zero or less yields the empty list. */
  method GenerateCardValues(pairsCount: int) returns (values: seq<int>)
    ensures IsDeck(values, pairsCount)
    ensures |values| == if pairsCount > 0 then 2 * pairsCount else 0
    ensures forall k :: 0 <= k < |values| ==> 0 <= values[k] < pairsCount
  {
    values := [];
    var i := 0;
    while i < pairsCount
      invariant 0 <= i <= if pairsCount > 0 then pairsCount else 0
      invariant values == Pairs(i)
    {
      values := values + [i];
      values := values + [i];
      assert values == Pairs(i) + [i, i] == Pairs(i + 1);
      i := i + 1;
    }
    ghost var p: nat := i;
    ghost var deck := values;
    values := Shuffle(values);
    IsDeckIsPermutationOfPairs(values, p);
    assert IsDeck(values, pairsCount) by {
      assert multiset(values) == multiset(deck) && deck == Pairs(p);
    }
    DeckShape(values, pairsCount);
  }

  /** The shuffle half of GenerateCardValues: for i from the last index down
      to 1, swap element i with the element at a random index in [0, i]. */
  method Shuffle(deck: seq<int>) returns (values: seq<int>)
    ensures multiset(values) == multiset(deck)
  {
    values := deck;
    var i := |values| - 1;
    while i > 0
      invariant -1 <= i < |values|
      invariant multiset(values) == multiset(deck)
    {
      var randomIndex :| 0 <= randomIndex <= i;
      var temp := values[i];
      values := values[i := values[randomIndex]];
      values := values[randomIndex := temp];
      i := i - 1;
    }
  }

  /** The pair values of a row of cards. */
  ghost function ValuesOf(cards: seq<Card>): (r: seq<int>)
    reads cards
    ensures |r| == |cards|
    ensures forall k :: 0 <= k < |cards| ==> r[k] == cards[k].value
  {
    if cards == [] then [] else [cards[0].value] + ValuesOf(cards[1..])
  }

  class CardLayoutManager {
    /** The cards of the current layout. */
    var activeCards: seq<Card>

    constructor ()
      ensures activeCards == []
    {
      activeCards := [];
    }

    /** Replaces the layout with rows * columns new cards, card i carrying
        the i-th value of a freshly generated deck, every flag cleared. An
        odd positive card count would read one value past the deck, so a
        positive count must be even. */
    method CreateCardLayout(rows: int, columns: int) returns (cards: seq<Card>)
      requires rows * columns <= 0 || (rows * columns) % 2 == 0
      modifies this
      ensures cards == activeCards
      ensures |cards| == if rows * columns > 0 then rows * columns else 0
      ensures forall k :: 0 <= k < |cards| ==> fresh(cards[k])
      ensures forall j, k :: 0 <= j < k < |cards| ==> cards[j] != cards[k]
      ensures forall k :: 0 <= k < |cards| ==> !cards[k].isMatched && !cards[k].isFaceUp && !cards[k].isAnimating
      ensures IsDeck(ValuesOf(cards), CSharp.Quot(rows * columns, 2))
    {
      // The previous cards go back to the pool.
      activeCards := [];

      var totalCards := rows * columns;
      var pairsCount := CSharp.Quot(totalCards, 2);
      assert totalCards > 0 ==> 2 * pairsCount == totalCards;
      assert totalCards <= 0 ==> pairsCount <= 0;
      var cardValues := GenerateCardValues(pairsCount);

      var i := 0;
      while i < totalCards
        invariant 0 <= i <= |cardValues|
        invariant |activeCards| == i
        invariant forall k :: 0 <= k < i ==> fresh(activeCards[k])
        invariant forall j, k :: 0 <= j < k < i ==> activeCards[j] != activeCards[k]
        invariant forall k :: 0 <= k < i ==> activeCards[k].value == cardValues[k]
        invariant forall k :: 0 <= k < i ==> !activeCards[k].isMatched && !activeCards[k].isFaceUp && !activeCards[k].isAnimating
      {
        var card := new Card();
        activeCards := activeCards + [card];

        var spriteIndex := cardValues[i];
        card.SetupCard(spriteIndex);
        i := i + 1;
      }
      cards := activeCards;
      assert ValuesOf(cards) == cardValues by {
        assert |ValuesOf(cards)| == |cardValues|;
      }
    }
  }
}
